/** The offline Mermaid subset: the graph that the parsed lines build, and its
    longest-path layering. Lines arrive here already split at their arrows. */
module Mermaid {
  import opened Text

  datatype Node = Node(id: string, caption: string)

  datatype Edge = Edge(from: string, to: string, caption: Option<string>)

  datatype Graph = Graph(nodes: seq<Node>, edges: seq<Edge>)

  // ---------------------------------------------------------------- the lines

  datatype NodeRef = NodeRef(id: string, caption: Option<string>)

  /** A piece between two arrows; `node` is None when it is no node reference. */
  datatype Segment = Segment(node: Option<NodeRef>, edgeLabel: Option<string>)

  /** A line after the header: a directive to skip, a chain of at least two
      segments, or a single reference. */
  datatype Line = Directive | Chain(segments: seq<Segment>) | Single(node: Option<NodeRef>)

  function Refs(segments: seq<Segment>): seq<NodeRef> {
    if |segments| == 0 then []
    else
      var last := segments[|segments| - 1];
      Refs(segments[..|segments| - 1]) + if last.node.Some? then [last.node.value] else []
  }

  /** All references of the text, in order. */
  function Mentions(lines: seq<Line>): seq<NodeRef> {
    if |lines| == 0 then []
    else
      Mentions(lines[..|lines| - 1]) +
      match lines[|lines| - 1]
      case Directive => []
      case Chain(segments) => Refs(segments)
      case Single(node) => if node.Some? then [node.value] else []
  }

  /** One edge per pair of neighbouring segments that both are references. */
  function ChainEdges(segments: seq<Segment>): seq<Edge> {
    if |segments| < 2 then []
    else
      var a, b := segments[|segments| - 2], segments[|segments| - 1];
      ChainEdges(segments[..|segments| - 1]) +
      if a.node.Some? && b.node.Some? then [Edge(a.node.value.id, b.node.value.id, b.edgeLabel)] else []
  }

  function Links(lines: seq<Line>): seq<Edge> {
    if |lines| == 0 then []
    else
      var last := lines[|lines| - 1];
      Links(lines[..|lines| - 1]) + if last.Chain? then ChainEdges(last.segments) else []
  }

  /** The distinct ids in the order of their first mention. */
  function Order(refs: seq<NodeRef>): seq<string> {
    if |refs| == 0 then []
    else
      var rest, id := Order(refs[..|refs| - 1]), refs[|refs| - 1].id;
      if id in rest then rest else rest + [id]
  }

  /** The first label given to `id` that is not the id itself, or the id. */
  function LabelOf(refs: seq<NodeRef>, id: string): string {
    if |refs| == 0 then id
    else
      var so, last := LabelOf(refs[..|refs| - 1], id), refs[|refs| - 1];
      if last.id == id && so == id && last.caption.Some? then last.caption.value else so
  }

  ghost predicate DistinctIds(ids: seq<string>) {
    forall i, j :: 0 <= i < j < |ids| ==> ids[i] != ids[j]
  }

  lemma {:induction false} OrderOfRefs(refs: seq<NodeRef>)
    ensures DistinctIds(Order(refs))
    ensures forall r :: r in refs ==> r.id in Order(refs)
    ensures refs != [] ==> Order(refs) != []
  {
    if |refs| > 0 {
      var init := refs[..|refs| - 1];
      OrderOfRefs(init);
      forall r | r in refs ensures r.id in Order(refs) {
        if r in init {
          assert r.id in Order(init);
        }
      }
    }
  }

  lemma {:induction false} ChainEndsMentioned(segments: seq<Segment>)
    ensures forall e :: e in ChainEdges(segments) ==>
      && (exists r :: r in Refs(segments) && r.id == e.from)
      && (exists r :: r in Refs(segments) && r.id == e.to)
  {
    if |segments| >= 2 {
      var init := segments[..|segments| - 1];
      ChainEndsMentioned(init);
      var a, b := segments[|segments| - 2], segments[|segments| - 1];
      if a.node.Some? && b.node.Some? {
        assert a.node.value in Refs(init) && b.node.value in Refs(segments);
        assert a.node.value in Refs(segments);
      }
      forall r | r in Refs(init) ensures r in Refs(segments) {
      }
    }
  }

  lemma {:induction false} LinkEndsMentioned(lines: seq<Line>)
    ensures forall e :: e in Links(lines) ==>
      && (exists r :: r in Mentions(lines) && r.id == e.from)
      && (exists r :: r in Mentions(lines) && r.id == e.to)
  {
    if |lines| > 0 {
      var last := lines[|lines| - 1];
      LinkEndsMentioned(lines[..|lines| - 1]);
      if last.Chain? {
        ChainEndsMentioned(last.segments);
      }
      forall r | r in Mentions(lines[..|lines| - 1]) ensures r in Mentions(lines) {
      }
    }
  }

  /** What the parser promises the layering: ids are unique and every edge
      connects nodes of the graph. */
  ghost predicate WellFormed(g: Graph) {
    && (forall i, j :: 0 <= i < j < |g.nodes| ==> g.nodes[i].id != g.nodes[j].id)
    && (forall e :: e in g.edges ==> e.from in NodeIds(g) && e.to in NodeIds(g))
  }

  function NodeIds(g: Graph): set<string> {
    set n | n in g.nodes :: n.id
  }

  /** The dictionary that `addNode` maintains. */
  ghost predicate Labelled(nodeMap: map<string, string>, refs: seq<NodeRef>) {
    && (forall id :: id in nodeMap <==> id in Order(refs))
    && (forall id :: id in nodeMap ==> nodeMap[id] == LabelOf(refs, id))
  }

  method AddNode(nodeMap: map<string, string>, order: seq<string>, r: NodeRef, ghost refs: seq<NodeRef>)
    returns (nodeMap': map<string, string>, order': seq<string>)
    requires Labelled(nodeMap, refs) && order == Order(refs)
    ensures Labelled(nodeMap', refs + [r]) && order' == Order(refs + [r])
  {
    assert (refs + [r])[..|refs|] == refs;
    UnmentionedLabel(refs, r.id);
    nodeMap', order' := nodeMap, order;
    if r.id !in nodeMap {
      nodeMap' := nodeMap[r.id := if r.caption.Some? then r.caption.value else r.id];
      order' := order + [r.id];
    } else if r.caption.Some? && nodeMap[r.id] == r.id {
      nodeMap' := nodeMap[r.id := r.caption.value];
    }
  }

  lemma {:induction false} UnmentionedLabel(refs: seq<NodeRef>, id: string)
    ensures id !in Order(refs) ==> LabelOf(refs, id) == id
  {
    if |refs| > 0 {
      UnmentionedLabel(refs[..|refs| - 1], id);
    }
  }

  lemma {:induction false} ChainStep(segments: seq<Segment>, k: nat)
    requires k < |segments|
    ensures Refs(segments[..k + 1])
      == Refs(segments[..k]) + if segments[k].node.Some? then [segments[k].node.value] else []
    ensures ChainEdges(segments[..k + 1])
      == if k > 0 && segments[k - 1].node.Some? && segments[k].node.Some?
         then ChainEdges(segments[..k])
              + [Edge(segments[k - 1].node.value.id, segments[k].node.value.id, segments[k].edgeLabel)]
         else ChainEdges(segments[..k])
  {
    assert segments[..k + 1][..k] == segments[..k];
  }

  /** What the dictionary, the order and the edges hold after some references
      and links. */
  ghost predicate Built(nodeMap: map<string, string>, order: seq<string>, edges: seq<Edge>,
                        refs: seq<NodeRef>, links: seq<Edge>)
  {
    Labelled(nodeMap, refs) && order == Order(refs) && edges == links
  }

  function NodeOf(segment: Segment): seq<NodeRef> {
    if segment.node.Some? then [segment.node.value] else []
  }

  function EdgeInto(previous: Option<NodeRef>, segment: Segment): seq<Edge> {
    if previous.Some? && segment.node.Some? then [Edge(previous.value.id, segment.node.value.id, segment.edgeLabel)]
    else []
  }

  /** One segment of a line. */
  method AddSegment(segment: Segment, nodeMap: map<string, string>, order: seq<string>, edges: seq<Edge>,
                    previous: Option<NodeRef>, ghost refs: seq<NodeRef>, ghost links: seq<Edge>)
    returns (nodeMap': map<string, string>, order': seq<string>, edges': seq<Edge>, previous': Option<NodeRef>)
    requires Built(nodeMap, order, edges, refs, links)
    ensures Built(nodeMap', order', edges', refs + NodeOf(segment), links + EdgeInto(previous, segment))
    ensures previous' == segment.node
  {
    nodeMap', order', edges' := nodeMap, order, edges;
    if segment.node.None? {
      assert refs + [] == refs;
      previous' := None;
    } else {
      var node := segment.node.value;
      nodeMap', order' := AddNode(nodeMap, order, node, refs);
      if previous.Some? {
        edges' := edges + [Edge(previous.value.id, node.id, segment.edgeLabel)];
      }
      previous' := Some(node);
    }
  }

  lemma {:induction false} ChainGrows(segments: seq<Segment>, k: nat, refs: seq<NodeRef>, links: seq<Edge>,
                                      previous: Option<NodeRef>)
    requires k < |segments| && previous == if k == 0 then None else segments[k - 1].node
    ensures refs + Refs(segments[..k + 1]) == refs + Refs(segments[..k]) + NodeOf(segments[k])
    ensures links + ChainEdges(segments[..k + 1]) == links + ChainEdges(segments[..k]) + EdgeInto(previous, segments[k])
  {
    ChainStep(segments, k);
    assert Refs(segments[..k]) + [] == Refs(segments[..k]);
    assert ChainEdges(segments[..k]) + [] == ChainEdges(segments[..k]);
    Assoc(refs, Refs(segments[..k]), NodeOf(segments[k]));
    Assoc(links, ChainEdges(segments[..k]), EdgeInto(previous, segments[k]));
  }

  /** The loop over the segments of one line. */
  method AddChain(segments: seq<Segment>, nodeMap: map<string, string>, order: seq<string>, edges: seq<Edge>,
                  ghost refs: seq<NodeRef>)
    returns (nodeMap': map<string, string>, order': seq<string>, edges': seq<Edge>)
    requires Labelled(nodeMap, refs) && order == Order(refs)
    ensures Labelled(nodeMap', refs + Refs(segments)) && order' == Order(refs + Refs(segments))
    ensures edges' == edges + ChainEdges(segments)
  {
    nodeMap', order', edges' := nodeMap, order, edges;
    var previous: Option<NodeRef> := None;
    assert refs + Refs(segments[..0]) == refs && edges + ChainEdges(segments[..0]) == edges;
    for k := 0 to |segments|
      invariant Built(nodeMap', order', edges', refs + Refs(segments[..k]), edges + ChainEdges(segments[..k]))
      invariant previous == if k == 0 then None else segments[k - 1].node
    {
      ChainGrows(segments, k, refs, edges, previous);
      nodeMap', order', edges', previous :=
        AddSegment(segments[k], nodeMap', order', edges', previous,
                   refs + Refs(segments[..k]), edges + ChainEdges(segments[..k]));
    }
    assert segments[..|segments|] == segments;
  }

  // ------------------------------------------------- what the lines say, piece by piece

  /** Line and piece. */
  type Spot = (int, int)

  ghost predicate Before(a: Spot, b: Spot) {
    a.0 < b.0 || (a.0 == b.0 && a.1 < b.1)
  }

  /** The reference at a piece of a line; a single line is one piece. */
  function RefAt(lines: seq<Line>, n: int, k: int): Option<NodeRef> {
    if !(0 <= n < |lines|) then None
    else
      match lines[n]
      case Directive => None
      case Chain(segments) => if 0 <= k < |segments| then segments[k].node else None
      case Single(node) => if k == 0 then node else None
  }

  /** The edge into a piece: from its left neighbour, when both are references. */
  function EdgeAt(lines: seq<Line>, n: int, k: int): Option<Edge> {
    if 0 <= n < |lines| && lines[n].Chain? && 0 < k < |lines[n].segments| then
      var a, b := lines[n].segments[k - 1], lines[n].segments[k];
      if a.node.Some? && b.node.Some? then Some(Edge(a.node.value.id, b.node.value.id, b.edgeLabel)) else None
    else None
  }

  type Pick<T> = (int, int) -> Option<T>

  function RefsOf(lines: seq<Line>): Pick<NodeRef> {
    (n, k) => RefAt(lines, n, k)
  }

  function EdgesOf(lines: seq<Line>): Pick<Edge> {
    (n, k) => EdgeAt(lines, n, k)
  }

  /** `out` is what stands at the spots before `end`, once each and in their order. */
  ghost predicate ListsTo<T(!new)>(pick: Pick<T>, end: Spot, at: seq<Spot>, out: seq<T>) {
    && |at| == |out|
    && (forall i :: 0 <= i < |at| ==> pick(at[i].0, at[i].1) == Some(out[i]) && Before(at[i], end))
    && (forall i, j :: 0 <= i < j < |at| ==> Before(at[i], at[j]))
    && forall n, k :: pick(n, k).Some? && Before((n, k), end) ==> (n, k) in at
  }

  /** `out` is what stands at all spots, once each and in their order. */
  ghost predicate Lists<T(!new)>(pick: Pick<T>, at: seq<Spot>, out: seq<T>) {
    && |at| == |out|
    && (forall i :: 0 <= i < |at| ==> pick(at[i].0, at[i].1) == Some(out[i]))
    && (forall i, j :: 0 <= i < j < |at| ==> Before(at[i], at[j]))
    && forall n, k :: pick(n, k).Some? ==> (n, k) in at
  }

  function ValueOf<T>(x: Option<T>): seq<T> {
    if x.Some? then [x.value] else []
  }

  /** The next piece of a line. */
  lemma {:induction false} ListsNext<T(!new)>(pick: Pick<T>, n: int, k: int, at: seq<Spot>, out: seq<T>)
    returns (at': seq<Spot>)
    requires ListsTo(pick, (n, k), at, out)
    ensures ListsTo(pick, (n, k + 1), at', out + ValueOf(pick(n, k)))
  {
    at' := if pick(n, k).Some? then at + [(n, k)] else at;
    assert out + [] == out;
    forall a, b | pick(a, b).Some? && Before((a, b), (n, k + 1)) ensures (a, b) in at' {
      if (a, b) == (n, k) {
        assert at'[|at|] == (n, k);
      } else {
        assert (a, b) in at;
      }
    }
  }

  /** The end of a line. */
  lemma {:induction false} ListsLine<T(!new)>(pick: Pick<T>, n: int, k: int, next: int, at: seq<Spot>, out: seq<T>)
    requires ListsTo(pick, (n, k), at, out) && next == n + 1
    requires forall b :: b >= k ==> pick(n, b).None?
    requires forall b :: b < 0 ==> pick(next, b).None?
    ensures ListsTo(pick, (next, 0), at, out)
  {
  }

  lemma {:induction false} RowRefs(lines: seq<Line>, n: nat, k: nat, before: seq<Spot>, out: seq<NodeRef>)
    returns (at: seq<Spot>)
    requires n < |lines| && lines[n].Chain? && k <= |lines[n].segments|
    requires ListsTo(RefsOf(lines), (n, 0), before, out)
    ensures ListsTo(RefsOf(lines), (n, k), at, out + Refs(lines[n].segments[..k]))
  {
    var segments := lines[n].segments;
    if k == 0 {
      at := before;
      assert out + Refs(segments[..0]) == out;
    } else {
      at := RowRefs(lines, n, k - 1, before, out);
      at := ListsNext(RefsOf(lines), n, k - 1, at, out + Refs(segments[..k - 1]));
      assert segments[..k][..k - 1] == segments[..k - 1];
      Assoc(out, Refs(segments[..k - 1]), ValueOf(segments[k - 1].node));
    }
  }

  lemma {:induction false} RowEdges(lines: seq<Line>, n: nat, k: nat, before: seq<Spot>, out: seq<Edge>)
    returns (at: seq<Spot>)
    requires n < |lines| && lines[n].Chain? && k <= |lines[n].segments|
    requires ListsTo(EdgesOf(lines), (n, 0), before, out)
    ensures ListsTo(EdgesOf(lines), (n, k), at, out + ChainEdges(lines[n].segments[..k]))
  {
    var segments := lines[n].segments;
    if k == 0 {
      at := before;
      assert out + ChainEdges(segments[..0]) == out;
    } else {
      at := RowEdges(lines, n, k - 1, before, out);
      var init := ChainEdges(segments[..k - 1]);
      at := ListsNext(EdgesOf(lines), n, k - 1, at, out + init);
      ChainStep(segments, k - 1);
      assert init + [] == init;
      Assoc(out, init, ValueOf(EdgeAt(lines, n, k - 1)));
    }
  }

  function LineRefs(line: Line): seq<NodeRef> {
    match line
    case Directive => []
    case Chain(segments) => Refs(segments)
    case Single(node) => ValueOf(node)
  }

  lemma {:induction false} LineListed(lines: seq<Line>, n: nat, before: seq<Spot>, out: seq<NodeRef>)
    returns (at: seq<Spot>)
    requires n < |lines| && ListsTo(RefsOf(lines), (n, 0), before, out)
    ensures ListsTo(RefsOf(lines), (n + 1, 0), at, out + LineRefs(lines[n]))
  {
    match lines[n] {
      case Directive =>
        at := before;
        DirectiveListed(lines, n, before, out);
      case Chain(segments) =>
        at := RowRefs(lines, n, |segments|, before, out);
        assert segments[..|segments|] == segments;
        ListsLine(RefsOf(lines), n, |segments|, n + 1, at, out + Refs(segments));
      case Single(node) =>
        at := SingleListed(lines, n, node, before, out);
    }
  }

  lemma {:induction false} DirectiveListed(lines: seq<Line>, n: nat, at: seq<Spot>, out: seq<NodeRef>)
    requires n < |lines| && lines[n] == Directive && ListsTo(RefsOf(lines), (n, 0), at, out)
    ensures ListsTo(RefsOf(lines), (n + 1, 0), at, out + [])
  {
    assert out + [] == out;
    ListsLine(RefsOf(lines), n, 0, n + 1, at, out);
  }

  lemma {:induction false} SingleListed(lines: seq<Line>, n: nat, node: Option<NodeRef>, before: seq<Spot>,
                                        out: seq<NodeRef>) returns (at: seq<Spot>)
    requires n < |lines| && lines[n] == Single(node) && ListsTo(RefsOf(lines), (n, 0), before, out)
    ensures ListsTo(RefsOf(lines), (n + 1, 0), at, out + ValueOf(node))
  {
    at := ListsNext(RefsOf(lines), n, 0, before, out);
    ListsLine(RefsOf(lines), n, 1, n + 1, at, out + ValueOf(node));
  }

  lemma {:induction false} MentionsNext(lines: seq<Line>, n: nat)
    requires n < |lines|
    ensures Mentions(lines[..n + 1]) == Mentions(lines[..n]) + LineRefs(lines[n])
  {
    assert lines[..n + 1][..n] == lines[..n];
  }

  /** The references of the text, one for each piece that is one. */
  lemma {:induction false} MentionsAre(lines: seq<Line>, n: nat) returns (at: seq<Spot>)
    requires n <= |lines|
    ensures ListsTo(RefsOf(lines), (n, 0), at, Mentions(lines[..n]))
  {
    if n == 0 {
      at := [];
    } else {
      at := MentionsAre(lines, n - 1);
      at := LineListed(lines, n - 1, at, Mentions(lines[..n - 1]));
      MentionsNext(lines, n - 1);
    }
  }

  /** The edges of the text, one for each pair of neighbouring references. */
  lemma {:induction false} LinksAre(lines: seq<Line>, n: nat) returns (at: seq<Spot>)
    requires n <= |lines|
    ensures ListsTo(EdgesOf(lines), (n, 0), at, Links(lines[..n]))
  {
    if n == 0 {
      at := [];
    } else {
      var links := Links(lines[..n - 1]);
      at := LinksAre(lines, n - 1);
      assert lines[..n][..n - 1] == lines[..n - 1];
      if lines[n - 1].Chain? {
        var segments := lines[n - 1].segments;
        at := RowEdges(lines, n - 1, |segments|, at, links);
        assert segments[..|segments|] == segments;
        ListsLine(EdgesOf(lines), n - 1, |segments|, n, at, links + ChainEdges(segments));
      } else {
        assert links + [] == links;
        ListsLine(EdgesOf(lines), n - 1, 0, n, at, links);
      }
    }
  }

  /** Whether a reference gives `id` a label that is not the id itself. */
  predicate Labels(r: NodeRef, id: string) {
    r.id == id && r.caption.Some? && r.caption.value != id
  }

  /** The nodes of some references: their ids in the order of their first mention,
      each with the first label given to it, or the id. */
  ghost predicate FirstMentions(refs: seq<NodeRef>, nodes: seq<Node>, firsts: seq<nat>) {
    && |firsts| == |nodes|
    && (forall i :: 0 <= i < |nodes| ==> FirstAt(refs, nodes[i].id, firsts[i]))
    && (forall i, j :: 0 <= i < j < |nodes| ==> firsts[i] < firsts[j])
    && (forall r :: r in refs ==> exists i :: 0 <= i < |nodes| && nodes[i].id == r.id)
    && forall i :: 0 <= i < |nodes| ==> Captioned(refs, nodes[i])
  }

  ghost predicate FirstAt(refs: seq<NodeRef>, id: string, k: nat) {
    k < |refs| && refs[k].id == id && forall m :: 0 <= m < k ==> refs[m].id != id
  }

  ghost predicate Captioned(refs: seq<NodeRef>, node: Node) {
    if exists k :: 0 <= k < |refs| && Labels(refs[k], node.id) then
      exists k :: 0 <= k < |refs| && Labels(refs[k], node.id) && node.caption == refs[k].caption.value
        && forall m :: 0 <= m < k ==> !Labels(refs[m], node.id)
    else node.caption == node.id
  }

  lemma {:induction false} LabelIs(refs: seq<NodeRef>, id: string)
    ensures Captioned(refs, Node(id, LabelOf(refs, id)))
    ensures LabelOf(refs, id) != id <==> exists k :: 0 <= k < |refs| && Labels(refs[k], id)
  {
    if |refs| > 0 {
      var init, last := refs[..|refs| - 1], |refs| - 1;
      LabelIs(init, id);
      if LabelOf(init, id) != id {
        var k :| 0 <= k < |init| && Labels(init[k], id) && LabelOf(init, id) == init[k].caption.value
          && forall m :: 0 <= m < k ==> !Labels(init[m], id);
        assert refs[k] == init[k] && forall m :: 0 <= m < k ==> refs[m] == init[m];
      } else {
        assert forall m :: 0 <= m < last ==> init[m] == refs[m] && !Labels(refs[m], id);
      }
    }
  }

  lemma {:induction false} OrderIs(refs: seq<NodeRef>) returns (firsts: seq<nat>)
    ensures |firsts| == |Order(refs)|
    ensures forall i :: 0 <= i < |firsts| ==> FirstAt(refs, Order(refs)[i], firsts[i])
    ensures forall i, j :: 0 <= i < j < |firsts| ==> firsts[i] < firsts[j]
  {
    if |refs| == 0 {
      firsts := [];
    } else {
      var init, last := refs[..|refs| - 1], refs[|refs| - 1];
      firsts := OrderIs(init);
      OrderOfRefs(init);
      forall i | 0 <= i < |firsts| ensures FirstAt(refs, Order(init)[i], firsts[i]) {
        assert FirstAt(init, Order(init)[i], firsts[i]);
      }
      if last.id !in Order(init) {
        forall m | 0 <= m < |init| ensures refs[m].id != last.id {
          assert init[m] in init;
        }
        firsts := firsts + [|init|];
      }
    }
  }

  ghost predicate DrawsEdges(lines: seq<Line>, edges: seq<Edge>) {
    exists at :: Lists(EdgesOf(lines), at, edges)
  }

  ghost predicate DrawsNodes(lines: seq<Line>, nodes: seq<Node>) {
    exists at, refs, firsts :: Lists(RefsOf(lines), at, refs) && FirstMentions(refs, nodes, firsts)
  }

  /** The graph of the lines: one edge for each pair of neighbouring references, in
      the order of the text, and a node for each id that a piece refers to. */
  ghost predicate Draws(lines: seq<Line>, g: Graph) {
    DrawsEdges(lines, g.edges) && DrawsNodes(lines, g.nodes)
  }

  lemma {:induction false} LinksDrawn(lines: seq<Line>)
    ensures DrawsEdges(lines, Links(lines))
  {
    assert lines[..|lines|] == lines;
    var at := LinksAre(lines, |lines|);
    assert Lists(EdgesOf(lines), at, Links(lines));
  }

  lemma {:induction false} MentionsListed(lines: seq<Line>) returns (at: seq<Spot>)
    ensures Lists(RefsOf(lines), at, Mentions(lines))
  {
    assert lines[..|lines|] == lines;
    at := MentionsAre(lines, |lines|);
  }

  lemma {:induction false} OrderMentions(refs: seq<NodeRef>, nodes: seq<Node>) returns (firsts: seq<nat>)
    requires |nodes| == |Order(refs)|
    requires forall i :: 0 <= i < |nodes| ==> nodes[i] == Node(Order(refs)[i], LabelOf(refs, Order(refs)[i]))
    ensures FirstMentions(refs, nodes, firsts)
  {
    firsts := OrderIs(refs);
    OrderOfRefs(refs);
    forall i | 0 <= i < |nodes| ensures Captioned(refs, nodes[i]) {
      LabelIs(refs, Order(refs)[i]);
    }
    forall r | r in refs ensures exists i :: 0 <= i < |nodes| && nodes[i].id == r.id {
      var i :| 0 <= i < |Order(refs)| && Order(refs)[i] == r.id;
      assert nodes[i].id == r.id;
    }
  }

  lemma {:induction false} ParsedDraws(lines: seq<Line>, refs: seq<NodeRef>, nodes: seq<Node>)
    requires refs == Mentions(lines) && |nodes| == |Order(refs)|
    requires forall i :: 0 <= i < |nodes| ==> nodes[i] == Node(Order(refs)[i], LabelOf(refs, Order(refs)[i]))
    ensures DrawsNodes(lines, nodes)
  {
    var at := MentionsListed(lines);
    var firsts := OrderMentions(refs, nodes);
  }

  ghost predicate NoRefs(lines: seq<Line>) {
    forall n, k :: RefAt(lines, n, k).None?
  }

  lemma {:induction false} NoMentions(lines: seq<Line>)
    ensures Mentions(lines) == [] <==> NoRefs(lines)
  {
    var at := MentionsListed(lines);
    if |at| > 0 {
      assert RefsOf(lines)(at[0].0, at[0].1).Some?;
      assert RefAt(lines, at[0].0, at[0].1).Some?;
    }
    forall n, k | RefAt(lines, n, k).Some? ensures |at| > 0 {
      assert RefsOf(lines)(n, k).Some?;
    }
  }

  /** So an edge is drawn exactly when two neighbouring pieces of a line say so, and
      an id is a node exactly when some piece refers to it. */
  lemma {:induction false} DrawnIff(lines: seq<Line>, g: Graph)
    requires Draws(lines, g)
    ensures forall e :: e in g.edges <==> exists n, k :: EdgeAt(lines, n, k) == Some(e)
    ensures forall id :: id in NodeIds(g) <==>
      exists n, k :: RefAt(lines, n, k).Some? && RefAt(lines, n, k).value.id == id
  {
    var spots :| Lists(EdgesOf(lines), spots, g.edges);
    var at, refs, firsts :| Lists(RefsOf(lines), at, refs) && FirstMentions(refs, g.nodes, firsts);
    forall e ensures e in g.edges <==> exists n, k :: EdgeAt(lines, n, k) == Some(e) {
      EdgeDrawnIff(lines, g, spots, e);
    }
    forall id
      ensures id in NodeIds(g) <==> exists n, k :: RefAt(lines, n, k).Some? && RefAt(lines, n, k).value.id == id
    {
      NodeDrawnIff(lines, g, at, refs, firsts, id);
    }
  }

  lemma {:induction false} EdgeDrawnIff(lines: seq<Line>, g: Graph, at: seq<Spot>, e: Edge)
    requires Lists(EdgesOf(lines), at, g.edges)
    ensures e in g.edges <==> exists n, k :: EdgeAt(lines, n, k) == Some(e)
  {
    if e in g.edges {
      var i :| 0 <= i < |g.edges| && g.edges[i] == e;
      assert EdgesOf(lines)(at[i].0, at[i].1) == Some(e);
      assert EdgeAt(lines, at[i].0, at[i].1) == Some(e);
    }
    forall n, k | EdgeAt(lines, n, k) == Some(e) ensures e in g.edges {
      assert EdgesOf(lines)(n, k).Some?;
      var i :| 0 <= i < |at| && at[i] == (n, k);
      assert g.edges[i] == e;
    }
  }

  lemma {:induction false} NodeDrawnIff(lines: seq<Line>, g: Graph, at: seq<Spot>, refs: seq<NodeRef>,
                                        firsts: seq<nat>, id: string)
    requires Lists(RefsOf(lines), at, refs) && FirstMentions(refs, g.nodes, firsts)
    ensures id in NodeIds(g) <==> exists n, k :: RefAt(lines, n, k).Some? && RefAt(lines, n, k).value.id == id
  {
    if id in NodeIds(g) {
      var i :| 0 <= i < |g.nodes| && g.nodes[i].id == id;
      var spot := at[firsts[i]];
      assert RefsOf(lines)(spot.0, spot.1) == Some(refs[firsts[i]]);
      assert RefAt(lines, spot.0, spot.1).Some?;
    }
    forall n, k | RefAt(lines, n, k).Some? && RefAt(lines, n, k).value.id == id ensures id in NodeIds(g) {
      assert RefsOf(lines)(n, k).Some?;
      var j :| 0 <= j < |at| && at[j] == (n, k);
      assert refs[j] in refs;
      var i :| 0 <= i < |g.nodes| && g.nodes[i].id == refs[j].id;
      assert g.nodes[i] in g.nodes;
    }
  }

  /** The loop over the lines and what it makes of its dictionary. */
  method Build(lines: seq<Line>) returns (g: Option<Graph>)
    ensures g.None? <==> Mentions(lines) == []
    ensures g.Some? ==>
      && WellFormed(g.value) && g.value.nodes != [] && g.value.edges == Links(lines)
      && |g.value.nodes| == |Order(Mentions(lines))|
      && forall i :: 0 <= i < |g.value.nodes| ==>
           var id := Order(Mentions(lines))[i];
           g.value.nodes[i] == Node(id, LabelOf(Mentions(lines), id))
  {
    var nodeMap: map<string, string> := map[];
    var order: seq<string> := [];
    var edges: seq<Edge> := [];
    for n := 0 to |lines|
      invariant Labelled(nodeMap, Mentions(lines[..n])) && order == Order(Mentions(lines[..n]))
      invariant edges == Links(lines[..n])
    {
      ghost var refs, links := Mentions(lines[..n]), Links(lines[..n]);
      assert lines[..n + 1][..n] == lines[..n];
      assert refs + [] == refs && links + [] == links;
      match lines[n] {
        case Directive =>
        case Chain(segments) =>
          nodeMap, order, edges := AddChain(segments, nodeMap, order, edges, refs);
        case Single(node) =>
          if node.Some? {
            nodeMap, order := AddNode(nodeMap, order, node.value, refs);
          }
      }
    }
    assert lines[..|lines|] == lines;
    ghost var refs := Mentions(lines);
    OrderOfRefs(refs);
    if nodeMap.Keys == {} {
      assert Order(refs) == [] by {
        assert forall id :: id in Order(refs) ==> id in nodeMap;
      }
      return None;
    }
    var id :| id in nodeMap;
    var nodes := seq(|order|, i requires 0 <= i < |order| =>
      Node(order[i], if order[i] in nodeMap then nodeMap[order[i]] else order[i]));
    g := Some(Graph(nodes, edges));
    LinkEndsMentioned(lines);
    forall r | r in refs ensures r.id in NodeIds(g.value) {
      var i :| 0 <= i < |order| && order[i] == r.id;
      assert nodes[i] in nodes;
    }
  }

  /** The graph that the lines after a flowchart header draw, or none when nothing in
      them is a reference. */
  method Parse(lines: seq<Line>) returns (g: Option<Graph>)
    ensures g.None? <==> NoRefs(lines)
    ensures g.Some? ==> WellFormed(g.value) && g.value.nodes != [] && Draws(lines, g.value)
  {
    g := Build(lines);
    NoMentions(lines);
    LinksDrawn(lines);
    if g.Some? {
      ParsedDraws(lines, Mentions(lines), g.value.nodes);
    }
  }

  // ------------------------------------------------------------------- walks

  ghost predicate IsEdge(g: Graph, a: string, b: string) {
    exists e :: e in g.edges && e.from == a && e.to == b
  }

  /** A walk along edges, given by the ids that it visits. */
  ghost predicate Walk(g: Graph, p: seq<string>) {
    && p != []
    && (forall i :: 0 <= i < |p| ==> p[i] in NodeIds(g))
    && (forall i :: 0 <= i < |p| - 1 ==> Follows(g, p, i))
  }

  ghost predicate Follows(g: Graph, p: seq<string>, i: int)
    requires 0 <= i < |p| - 1
  {
    IsEdge(g, p[i], p[i + 1])
  }

  ghost predicate Acyclic(g: Graph) {
    forall p :: Walk(g, p) && |p| > 1 ==> p[0] != p[|p| - 1]
  }

  /** Some walk with `n` edges ends at `id`. */
  ghost predicate Reached(g: Graph, id: string, n: int) {
    exists p :: Walk(g, p) && |p| == n + 1 && p[n] == id
  }

  /** `n` is the length of the longest walk that ends at `id`. */
  ghost predicate Longest(g: Graph, id: string, n: int) {
    && Reached(g, id, n)
    && forall p :: Walk(g, p) && p[|p| - 1] == id ==> |p| - 1 <= n
  }

  lemma {:induction false} SubWalk(g: Graph, p: seq<string>, lo: nat, hi: nat)
    requires Walk(g, p) && lo < hi <= |p|
    ensures Walk(g, p[lo..hi])
  {
    var q := p[lo..hi];
    forall i | 0 <= i < |q| - 1 ensures Follows(g, q, i) {
      assert Follows(g, p, lo + i);
    }
  }

  lemma {:induction false} JoinWalks(g: Graph, p: seq<string>, q: seq<string>)
    requires Walk(g, p) && Walk(g, q) && IsEdge(g, p[|p| - 1], q[0])
    ensures Walk(g, p + q)
  {
    var r := p + q;
    forall i | 0 <= i < |r| - 1 ensures Follows(g, r, i) {
      if i < |p| - 1 {
        assert Follows(g, p, i);
      } else if i >= |p| {
        assert Follows(g, q, i - |p|);
      }
    }
  }

  lemma {:induction false} DistinctBound(p: seq<string>, s: set<string>)
    requires DistinctIds(p) && forall x :: x in p ==> x in s
    ensures |p| <= |s|
  {
    if |p| > 0 {
      var last := p[|p| - 1];
      DistinctBound(p[..|p| - 1], s - {last});
    }
  }

  lemma {:induction false} NodeIdsSize(g: Graph)
    requires WellFormed(g)
    ensures |NodeIds(g)| <= |g.nodes|
  {
    IdSetSize(g.nodes);
  }

  lemma {:induction false} IdSetSize(nodes: seq<Node>)
    ensures |set n | n in nodes :: n.id| <= |nodes|
  {
    if |nodes| > 0 {
      var rest := nodes[1..];
      IdSetSize(rest);
      assert (set n | n in nodes :: n.id) == (set n | n in rest :: n.id) + {nodes[0].id};
    } else {
      assert (set n | n in nodes :: n.id) == {};
    }
  }

  /** Without a cycle a walk visits no node twice, so it is shorter than the
      number of nodes: the cap on depths cannot bind. */
  lemma {:induction false} AcyclicWalkShort(g: Graph, p: seq<string>)
    requires WellFormed(g) && Acyclic(g) && Walk(g, p)
    ensures |p| <= |g.nodes|
  {
    forall i, j | 0 <= i < j < |p| ensures p[i] != p[j] {
      SubWalk(g, p, i, j + 1);
      assert p[i..j + 1][0] == p[i] && p[i..j + 1][j - i] == p[j];
    }
    DistinctBound(p, NodeIds(g));
    NodeIdsSize(g);
  }

  // ---------------------------------------------------------------- relaxation

  type Depths = map<string, int>

  /** Every depth is the length of a real walk and within the cap. */
  ghost predicate Sound(g: Graph, depth: Depths) {
    && depth.Keys == NodeIds(g)
    && forall id {:trigger depth[id]} :: id in depth ==> 0 <= depth[id] <= |g.nodes| && Reached(g, id, depth[id])
  }

  /** `depth` is at least one relaxation of the first `n` edges above `before`. */
  ghost predicate Relaxed(g: Graph, before: Depths, depth: Depths, n: nat)
    requires WellFormed(g) && before.Keys == depth.Keys == NodeIds(g) && n <= |g.edges|
  {
    && (forall id {:trigger depth[id]} :: id in depth ==> before[id] <= depth[id])
    && forall i :: 0 <= i < n ==>
         var e := g.edges[i]; before[e.from] < |g.nodes| ==> before[e.from] + 1 <= depth[e.to]
  }

  /** Walks of up to `n` edges are accounted for, as long as the cap is slack. */
  ghost predicate Covers(g: Graph, depth: Depths, n: nat)
    requires depth.Keys == NodeIds(g)
  {
    forall p :: Walk(g, p) && |p| <= n + 1 ==> |p| - 1 <= depth[p[|p| - 1]]
  }

  lemma {:induction false} ExtendReached(g: Graph, e: Edge, n: int)
    requires WellFormed(g) && e in g.edges && Reached(g, e.from, n)
    ensures Reached(g, e.to, n + 1)
  {
    var p :| Walk(g, p) && |p| == n + 1 && p[n] == e.from;
    assert IsEdge(g, e.from, e.to);
    assert Walk(g, [e.to]);
    JoinWalks(g, p, [e.to]);
    assert (p + [e.to])[n + 1] == e.to;
  }

  /** The cap has not been reached. */
  ghost predicate Slack(g: Graph, depth: Depths) {
    forall id {:trigger depth[id]} :: id in depth ==> 0 <= depth[id] < |g.nodes|
  }

  lemma {:induction false} SlackCap(g: Graph, depth: Depths)
    requires WellFormed(g) && Acyclic(g) && Sound(g, depth)
    ensures Slack(g, depth)
  {
    forall id | id in depth ensures depth[id] < |g.nodes| {
      var p :| Walk(g, p) && |p| == depth[id] + 1 && p[depth[id]] == id;
      AcyclicWalkShort(g, p);
    }
  }

  lemma {:induction false} LastEdge(g: Graph, p: seq<string>) returns (i: nat)
    requires Walk(g, p) && |p| > 1
    ensures i < |g.edges| && g.edges[i].from == p[|p| - 2] && g.edges[i].to == p[|p| - 1]
    ensures Walk(g, p[..|p| - 1])
  {
    SubWalk(g, p, 0, |p| - 1);
    assert p[0..|p| - 1] == p[..|p| - 1];
    assert Follows(g, p, |p| - 2);
    var e :| e in g.edges && e.from == p[|p| - 2] && e.to == p[|p| - 1];
    i :| 0 <= i < |g.edges| && g.edges[i] == e;
  }

  lemma {:induction false} RoundCovers(g: Graph, before: Depths, depth: Depths, n: nat)
    requires WellFormed(g) && before.Keys == depth.Keys == NodeIds(g)
    requires Slack(g, before) && Slack(g, depth)
    requires Relaxed(g, before, depth, |g.edges|) && Covers(g, before, n)
    ensures Covers(g, depth, n + 1)
  {
    forall p | Walk(g, p) && |p| <= n + 2 ensures |p| - 1 <= depth[p[|p| - 1]] {
      if |p| > 1 {
        var i := LastEdge(g, p);
        var init := p[..|p| - 1];
        assert init[|init| - 1] == g.edges[i].from;
        assert |init| - 1 <= before[g.edges[i].from];
      }
    }
  }

  /** A round without a change has accounted for walks of every length. */
  lemma {:induction false} FixpointCovers(g: Graph, depth: Depths, n: nat)
    requires WellFormed(g) && Acyclic(g) && Sound(g, depth) && Relaxed(g, depth, depth, |g.edges|)
    ensures Covers(g, depth, n)
  {
    if n > 0 {
      FixpointCovers(g, depth, n - 1);
      SlackCap(g, depth);
      RoundCovers(g, depth, depth, n - 1);
    }
  }

  lemma {:induction false} CoversLongest(g: Graph, depth: Depths)
    requires WellFormed(g) && Acyclic(g) && Sound(g, depth) && Covers(g, depth, |g.nodes|)
    ensures forall id {:trigger depth[id]} :: id in depth ==> Longest(g, id, depth[id])
  {
    forall id, p | id in depth && Walk(g, p) && p[|p| - 1] == id ensures |p| - 1 <= depth[id] {
      AcyclicWalkShort(g, p);
    }
  }

  lemma {:induction false} UpdateSound(g: Graph, depth: Depths, id: string, d: int)
    requires Sound(g, depth) && id in depth && 0 <= d <= |g.nodes| && Reached(g, id, d)
    ensures Sound(g, depth[id := d])
  {
    var next := depth[id := d];
    assert next.Keys == depth.Keys;
    forall x {:trigger next[x]} | x in next ensures 0 <= next[x] <= |g.nodes| && Reached(g, x, next[x]) {
      if x != id {
        assert next[x] == depth[x];
      }
    }
  }

  lemma {:induction false} EdgeSound(g: Graph, depth: Depths, n: nat)
    requires WellFormed(g) && Sound(g, depth) && n < |g.edges|
    ensures g.edges[n].from in depth && g.edges[n].to in depth
    ensures Sound(g, AfterEdge(g, depth, n))
  {
    var e := g.edges[n];
    assert e in g.edges;
    var d := depth[e.from] + 1;
    if d > depth[e.to] && d < |g.nodes| + 1 {
      ExtendReached(g, e, depth[e.from]);
      UpdateSound(g, depth, e.to, d);
    }
  }

  lemma {:induction false} EdgeRelaxed(g: Graph, before: Depths, depth: Depths, n: nat)
    requires WellFormed(g) && before.Keys == depth.Keys == NodeIds(g) && n < |g.edges|
    requires Slack(g, depth) ==> Relaxed(g, before, depth, n)
    requires g.edges[n].from in depth && g.edges[n].to in depth
    requires forall id {:trigger depth[id]} :: id in depth ==> 0 <= depth[id]
    ensures AfterEdge(g, depth, n).Keys == NodeIds(g)
    ensures Slack(g, AfterEdge(g, depth, n)) ==> Relaxed(g, before, AfterEdge(g, depth, n), n + 1)
  {
    var e, next := g.edges[n], AfterEdge(g, depth, n);
    assert next.Keys == depth.Keys;
    if Slack(g, next) {
      assert Slack(g, depth) by {
        forall id {:trigger depth[id]} | id in depth ensures 0 <= depth[id] < |g.nodes| {
          assert depth[id] <= next[id];
        }
      }
      forall i | 0 <= i < n + 1 && before[g.edges[i].from] < |g.nodes|
        ensures before[g.edges[i].from] + 1 <= next[g.edges[i].to]
      {
        assert g.edges[i] in g.edges;
        assert before[e.from] <= depth[e.from];
      }
    }
  }

  /** What the relaxation of one edge does to the depths. */
  function AfterEdge(g: Graph, depth: Depths, n: nat): Depths
    requires n < |g.edges| && g.edges[n].from in depth && g.edges[n].to in depth
  {
    var e := g.edges[n];
    var d := depth[e.from] + 1;
    if d > depth[e.to] && d < |g.nodes| + 1 then depth[e.to := d] else depth
  }

  /** A round over the first `n` edges. */
  ghost predicate Round(g: Graph, before: Depths, depth: Depths, n: nat)
    requires WellFormed(g) && Sound(g, before) && n <= |g.edges|
  {
    Sound(g, depth) && (Slack(g, depth) ==> Relaxed(g, before, depth, n))
  }

  lemma {:induction false} RoundStarts(g: Graph, before: Depths)
    requires WellFormed(g) && Sound(g, before)
    ensures Round(g, before, before, 0)
  {
  }

  lemma {:induction false} RoundStep(g: Graph, before: Depths, depth: Depths, n: nat)
    requires WellFormed(g) && Sound(g, before) && n < |g.edges| && Round(g, before, depth, n)
    ensures g.edges[n].from in depth && g.edges[n].to in depth
    ensures Round(g, before, AfterEdge(g, depth, n), n + 1)
  {
    EdgeSound(g, depth, n);
    EdgeRelaxed(g, before, depth, n);
  }

  /** One round over all edges, in place, with depths capped at the node count. */
  method Relax(g: Graph, before: Depths) returns (depth: Depths, changed: bool)
    requires WellFormed(g) && Sound(g, before)
    ensures Round(g, before, depth, |g.edges|)
    ensures !changed ==> depth == before
  {
    depth, changed := before, false;
    RoundStarts(g, before);
    for n := 0 to |g.edges|
      invariant Round(g, before, depth, n)
      invariant !changed ==> depth == before
    {
      RoundStep(g, before, depth, n);
      depth, changed := RelaxEdge(g, depth, n, changed);
    }
  }

  /** The body of the loop over the edges. */
  method RelaxEdge(g: Graph, depth: Depths, n: nat, changed: bool) returns (depth': Depths, changed': bool)
    requires n < |g.edges| && g.edges[n].from in depth && g.edges[n].to in depth
    ensures depth' == AfterEdge(g, depth, n) && changed' == (changed || depth' != depth)
  {
    var e := g.edges[n];
    var d := depth[e.from] + 1;
    depth', changed' := depth, changed;
    if d > depth[e.to] && d < |g.nodes| + 1 {
      depth' := depth[e.to := d];
      changed' := true;
    }
  }

  method Zero(g: Graph) returns (depth: Depths)
    requires WellFormed(g)
    ensures Sound(g, depth) && Covers(g, depth, 0)
  {
    depth := map[];
    for k := 0 to |g.nodes|
      invariant depth.Keys == set i | 0 <= i < k :: g.nodes[i].id
      invariant forall id :: id in depth ==> depth[id] == 0
    {
      depth := depth[g.nodes[k].id := 0];
    }
    assert depth.Keys == NodeIds(g);
    forall id | id in depth ensures Reached(g, id, 0) {
      assert Walk(g, [id]);
    }
  }

  /** The relaxation: at most one round per node, until one changes nothing. */
  method Depth(g: Graph) returns (depth: Depths)
    requires WellFormed(g)
    ensures Sound(g, depth)
    ensures Acyclic(g) ==> forall id {:trigger depth[id]} :: id in depth ==> Longest(g, id, depth[id])
  {
    depth := Zero(g);
    var rounds := if |g.nodes| > 1 then |g.nodes| else 1;
    for round := 0 to rounds
      invariant Sound(g, depth)
      invariant Acyclic(g) ==> Covers(g, depth, round)
    {
      ghost var before := depth;
      var changed;
      depth, changed := Relax(g, depth);
      if Acyclic(g) {
        SlackCap(g, before);
        SlackCap(g, depth);
        RoundCovers(g, before, depth, round);
      }
      if !changed {
        if Acyclic(g) {
          FixpointCovers(g, depth, |g.nodes|);
        }
        break;
      }
    }
    if Acyclic(g) {
      CoversLongest(g, depth);
    }
  }

  // ------------------------------------------------------------------- layers

  /** The nodes at one depth, in the order of the graph. */
  function AtDepth(nodes: seq<Node>, depth: Depths, d: int): seq<Node> {
    if |nodes| == 0 then []
    else
      var rest, last := AtDepth(nodes[..|nodes| - 1], depth, d), nodes[|nodes| - 1];
      if last.id in depth && depth[last.id] == d then rest + [last] else rest
  }

  function Flatten(layers: seq<seq<Node>>): seq<Node> {
    if |layers| == 0 then [] else layers[0] + Flatten(layers[1..])
  }

  function NonEmpty(layers: seq<seq<Node>>): seq<seq<Node>> {
    if |layers| == 0 then []
    else if layers[0] == [] then NonEmpty(layers[1..])
    else [layers[0]] + NonEmpty(layers[1..])
  }

  lemma {:induction false} AtDepthMembers(nodes: seq<Node>, depth: Depths, d: int)
    ensures forall n :: n in AtDepth(nodes, depth, d) <==> n in nodes && n.id in depth && depth[n.id] == d
  {
    if |nodes| > 0 {
      var init := nodes[..|nodes| - 1];
      AtDepthMembers(init, depth, d);
      assert nodes == init + [nodes[|nodes| - 1]];
    }
  }

  lemma {:induction false} FlattenAdd(layers: seq<seq<Node>>, d: nat, n: Node)
    requires d < |layers|
    ensures multiset(Flatten(layers[d := layers[d] + [n]])) == multiset(Flatten(layers)) + multiset{n}
  {
    var more := layers[d := layers[d] + [n]];
    if d == 0 {
      assert more[1..] == layers[1..];
      assert multiset(layers[0] + [n]) == multiset(layers[0]) + multiset{n};
    } else {
      assert more[1..] == layers[1..][d - 1 := layers[1..][d - 1] + [n]];
      FlattenAdd(layers[1..], d - 1, n);
    }
  }

  lemma {:induction false} FlattenEmpties(layers: seq<seq<Node>>)
    requires forall i :: 0 <= i < |layers| ==> layers[i] == []
    ensures Flatten(layers) == []
  {
    if |layers| > 0 {
      FlattenEmpties(layers[1..]);
    }
  }

  lemma {:induction false} NonEmptyFlatten(layers: seq<seq<Node>>)
    ensures Flatten(NonEmpty(layers)) == Flatten(layers)
  {
    if |layers| > 0 {
      NonEmptyFlatten(layers[1..]);
      assert ([layers[0]] + NonEmpty(layers[1..]))[1..] == NonEmpty(layers[1..]);
    }
  }

  lemma {:induction false} NonEmptyAll(layers: seq<seq<Node>>)
    requires forall i :: 0 <= i < |layers| ==> layers[i] != []
    ensures NonEmpty(layers) == layers
  {
    if |layers| > 0 {
      NonEmptyAll(layers[1..]);
    }
  }

  /** Every kept layer is one of the original ones, and their order is kept. */
  lemma {:induction false} NonEmptyLayers(layers: seq<seq<Node>>) returns (source: seq<nat>)
    ensures |source| == |NonEmpty(layers)|
    ensures forall i :: 0 <= i < |source| ==> source[i] < |layers| && NonEmpty(layers)[i] == layers[source[i]] != []
    ensures forall i, j :: 0 <= i < j < |source| ==> source[i] < source[j]
  {
    if |layers| == 0 {
      source := [];
    } else {
      var rest := NonEmptyLayers(layers[1..]);
      var moved := seq(|rest|, i requires 0 <= i < |rest| => rest[i] + 1);
      source := if layers[0] == [] then moved else [0] + moved;
      MovedLayers(layers, NonEmpty(layers[1..]), rest, moved);
      if layers[0] != [] {
        OneInFront(layers, NonEmpty(layers[1..]), moved);
      }
    }
  }

  lemma {:induction false} MovedLayers(layers: seq<seq<Node>>, kept: seq<seq<Node>>, rest: seq<nat>, moved: seq<nat>)
    requires |layers| > 0 && |rest| == |kept| == |moved| && forall i :: 0 <= i < |rest| ==> moved[i] == rest[i] + 1
    requires forall i :: 0 <= i < |rest| ==> rest[i] < |layers| - 1 && kept[i] == layers[1..][rest[i]] != []
    ensures forall i :: 0 <= i < |moved| ==> moved[i] < |layers| && kept[i] == layers[moved[i]] != []
  {
    forall i | 0 <= i < |moved| ensures moved[i] < |layers| && kept[i] == layers[moved[i]] != [] {
      assert layers[1..][rest[i]] == layers[rest[i] + 1];
    }
  }

  lemma {:induction false} OneInFront(layers: seq<seq<Node>>, kept: seq<seq<Node>>, moved: seq<nat>)
    requires |layers| > 0 && layers[0] != [] && |kept| == |moved|
    requires forall i :: 0 <= i < |moved| ==> 0 < moved[i] < |layers| && kept[i] == layers[moved[i]] != []
    ensures var source, all := [0] + moved, [layers[0]] + kept;
      forall i :: 0 <= i < |source| ==> source[i] < |layers| && all[i] == layers[source[i]] != []
  {
    var source, all := [0] + moved, [layers[0]] + kept;
    forall i | 0 <= i < |source| ensures source[i] < |layers| && all[i] == layers[source[i]] != [] {
      if i > 0 {
        assert source[i] == moved[i - 1] && all[i] == kept[i - 1];
      }
    }
  }

  ghost predicate InLayer(layers: seq<seq<Node>>, id: string, i: int) {
    0 <= i < |layers| && exists n :: n in layers[i] && n.id == id
  }

  /** The edge leads to a strictly later layer. */
  ghost predicate Forward(layers: seq<seq<Node>>, e: Edge) {
    exists i, j :: i < j && InLayer(layers, e.from, i) && InLayer(layers, e.to, j)
  }

  /** Every layer is one depth, and later layers are deeper. */
  ghost predicate Graded(layers: seq<seq<Node>>, depth: Depths) {
    && (forall i, n :: 0 <= i < |layers| && n in layers[i] ==> n.id in depth)
    && (forall i, a, b :: 0 <= i < |layers| && a in layers[i] && b in layers[i] ==> depth[a.id] == depth[b.id])
    && (forall i, j, a, b :: 0 <= i < j < |layers| && a in layers[i] && b in layers[j] ==> depth[a.id] < depth[b.id])
  }

  lemma {:induction false} ForwardWalk(g: Graph, depth: Depths, p: seq<string>)
    requires WellFormed(g) && depth.Keys == NodeIds(g) && Walk(g, p)
    requires forall e :: e in g.edges ==> e.from in depth && e.to in depth && depth[e.from] < depth[e.to]
    ensures |p| > 1 ==> depth[p[0]] < depth[p[|p| - 1]]
  {
    if |p| > 1 {
      var i := LastEdge(g, p);
      assert g.edges[i] in g.edges;
      ForwardWalk(g, depth, p[..|p| - 1]);
    }
  }

  lemma {:induction false} ForwardDeeper(depth: Depths, layers: seq<seq<Node>>, e: Edge)
    requires Graded(layers, depth) && Forward(layers, e)
    ensures e.from in depth && e.to in depth && depth[e.from] < depth[e.to]
  {
    var i, j :| i < j && InLayer(layers, e.from, i) && InLayer(layers, e.to, j);
    var a :| a in layers[i] && a.id == e.from;
    var b :| b in layers[j] && b.id == e.to;
  }

  lemma {:induction false} ForwardIsAcyclic(g: Graph, depth: Depths, layers: seq<seq<Node>>)
    requires WellFormed(g) && depth.Keys == NodeIds(g) && Graded(layers, depth)
    requires forall e :: e in g.edges ==> Forward(layers, e)
    ensures Acyclic(g)
  {
    forall e | e in g.edges ensures e.from in depth && e.to in depth && depth[e.from] < depth[e.to] {
      ForwardDeeper(depth, layers, e);
    }
    forall p | Walk(g, p) && |p| > 1 ensures p[0] != p[|p| - 1] {
      ForwardWalk(g, depth, p);
    }
  }

  /** A walk that ends where a longest walk passes is no longer than its part. */
  lemma {:induction false} NoDetour(g: Graph, p: seq<string>, n: nat, d: nat, q: seq<string>)
    requires Walk(g, p) && |p| == n + 1 && d <= n && Longest(g, p[n], n)
    requires Walk(g, q) && q[|q| - 1] == p[d]
    ensures |q| - 1 <= d
  {
    if d < n {
      SubWalk(g, p, d + 1, n + 1);
      var tail := p[d + 1..n + 1];
      assert Follows(g, p, d);
      JoinWalks(g, q, tail);
      assert (q + tail)[|q + tail| - 1] == p[n];
    }
  }

  /** A longest walk passes through every smaller depth. */
  lemma {:induction false} LongestPrefix(g: Graph, id: string, n: nat, d: nat) returns (via: string)
    requires Longest(g, id, n) && d <= n
    ensures via in NodeIds(g) && Longest(g, via, d)
  {
    var p :| Walk(g, p) && |p| == n + 1 && p[n] == id;
    via := p[d];
    SubWalk(g, p, 0, d + 1);
    assert p[0..d + 1][d] == via;
    forall q | Walk(g, q) && q[|q| - 1] == via ensures |q| - 1 <= d {
      NoDetour(g, p, n, d, q);
    }
  }

  lemma {:induction false} LongestUnique(g: Graph, id: string, m: int, n: int)
    requires Longest(g, id, m) && Longest(g, id, n)
    ensures m == n
  {
    var p :| Walk(g, p) && |p| == m + 1 && p[m] == id;
    var q :| Walk(g, q) && |q| == n + 1 && q[n] == id;
    assert p[|p| - 1] == id && q[|q| - 1] == id;
  }

  /** In an acyclic graph an edge goes to a strictly greater depth. */
  lemma {:induction false} LongestEdge(g: Graph, e: Edge, m: int, n: int)
    requires WellFormed(g) && e in g.edges && Longest(g, e.from, m) && Longest(g, e.to, n)
    ensures m < n
  {
    ExtendReached(g, e, m);
    var p :| Walk(g, p) && |p| == m + 2 && p[m + 1] == e.to;
    assert p[|p| - 1] == e.to;
  }

  /** The raw layers before the empty ones are dropped. */
  ghost predicate Raw(g: Graph, depth: Depths, raw: seq<seq<Node>>, max: nat) {
    && |raw| == max + 1
    && forall d :: 0 <= d < |raw| ==> raw[d] == AtDepth(g.nodes, depth, d)
  }

  lemma {:induction false} RawInLayer(g: Graph, depth: Depths, raw: seq<seq<Node>>, max: nat, id: string)
    requires Raw(g, depth, raw, max) && depth.Keys == NodeIds(g) && id in depth && 0 <= depth[id] <= max
    ensures InLayer(raw, id, depth[id])
  {
    var n :| n in g.nodes && n.id == id;
    AtDepthMembers(g.nodes, depth, depth[id]);
    assert n in raw[depth[id]];
  }

  lemma {:induction false} RawGraded(g: Graph, depth: Depths, raw: seq<seq<Node>>, max: nat)
    requires Raw(g, depth, raw, max)
    ensures var layers := NonEmpty(raw);
      && Graded(layers, depth)
      && (forall i :: 0 <= i < |layers| ==> layers[i] != [])
      && (forall i, n :: 0 <= i < |layers| && n in layers[i] ==> layers[i] == AtDepth(g.nodes, depth, depth[n.id]))
  {
    var source := NonEmptyLayers(raw);
    var layers := NonEmpty(raw);
    forall i: int, n: Node | 0 <= i < |layers| && n in layers[i] ensures n.id in depth && depth[n.id] == source[i] {
      AtDepthMembers(g.nodes, depth, source[i]);
    }
  }

  lemma {:induction false} AcyclicLayers(g: Graph, depth: Depths, raw: seq<seq<Node>>, max: nat)
    requires WellFormed(g) && Acyclic(g) && Sound(g, depth) && Raw(g, depth, raw, max) && g.nodes != []
    requires forall id {:trigger depth[id]} :: id in depth ==> Longest(g, id, depth[id]) && depth[id] <= max
    requires exists id :: id in depth && depth[id] == max
    ensures NonEmpty(raw) == raw
    ensures forall d, n :: 0 <= d < |raw| && n in raw[d] ==> Longest(g, n.id, d)
    ensures forall e :: e in g.edges ==> Forward(raw, e)
  {
    var deepest :| deepest in depth && depth[deepest] == max;
    forall d | 0 <= d < |raw| ensures raw[d] != [] {
      var via := LongestPrefix(g, deepest, max, d);
      LongestUnique(g, via, depth[via], d);
      RawInLayer(g, depth, raw, max, via);
    }
    NonEmptyAll(raw);
    forall d: int, n: Node | 0 <= d < |raw| && n in raw[d] ensures Longest(g, n.id, d) {
      AtDepthMembers(g.nodes, depth, d);
    }
    forall e | e in g.edges ensures Forward(raw, e) {
      LongestEdge(g, e, depth[e.from], depth[e.to]);
      RawInLayer(g, depth, raw, max, e.from);
      RawInLayer(g, depth, raw, max, e.to);
    }
  }

  lemma {:induction false} ForwardIff(g: Graph, depth: Depths, raw: seq<seq<Node>>, max: nat)
    requires WellFormed(g) && Sound(g, depth) && Raw(g, depth, raw, max) && Graded(NonEmpty(raw), depth)
    requires Acyclic(g) ==> forall id {:trigger depth[id]} :: id in depth ==> Longest(g, id, depth[id])
    requires forall id {:trigger depth[id]} :: id in depth ==> depth[id] <= max
    requires g.nodes != [] ==> exists id :: id in depth && depth[id] == max
    requires g.nodes == [] ==> max == 0
    ensures var layers := NonEmpty(raw);
      && ((forall e :: e in g.edges ==> Forward(layers, e)) <==> Acyclic(g))
      && (Acyclic(g) ==> forall i, n :: 0 <= i < |layers| && n in layers[i] ==> Longest(g, n.id, i))
  {
    var layers := NonEmpty(raw);
    if Acyclic(g) {
      if g.nodes != [] {
        AcyclicLayers(g, depth, raw, max);
      } else {
        assert NodeIds(g) == {};
        assert raw[0] == [] && raw[1..] == [];
      }
    } else if forall e :: e in g.edges ==> Forward(layers, e) {
      ForwardIsAcyclic(g, depth, layers);
    }
  }

  /** The layers of a graph. They hold every node once, none of them is empty,
      and each is one depth in the order of the nodes. Every edge leads to a
      strictly later layer exactly when the graph has no cycle, and then the
      index of a layer is the length of the longest walk to each of its nodes. */
  method Layers(g: Graph) returns (layers: seq<seq<Node>>, ghost depth: Depths)
    requires WellFormed(g)
    ensures Sound(g, depth) && Graded(layers, depth)
    ensures multiset(Flatten(layers)) == multiset(g.nodes)
    ensures forall i :: 0 <= i < |layers| ==> layers[i] != []
    ensures forall i, n :: 0 <= i < |layers| && n in layers[i] ==> layers[i] == AtDepth(g.nodes, depth, depth[n.id])
    ensures Acyclic(g) ==> forall i, n :: 0 <= i < |layers| && n in layers[i] ==> Longest(g, n.id, i)
    ensures (forall e :: e in g.edges ==> Forward(layers, e)) <==> Acyclic(g)
  {
    var depths := Depth(g);
    depth := depths;
    var maxDepth := MaxDepth(g, depths);
    var raw := FillLayers(g, depths, maxDepth);
    layers := NonEmpty(raw);
    NonEmptyFlatten(raw);
    RawGraded(g, depth, raw, maxDepth);
    ForwardIff(g, depth, raw, maxDepth);
  }

  method MaxDepth(g: Graph, depth: Depths) returns (max: nat)
    requires WellFormed(g) && Sound(g, depth)
    ensures forall id {:trigger depth[id]} :: id in depth ==> depth[id] <= max
    ensures g.nodes != [] ==> exists id :: id in depth && depth[id] == max
    ensures g.nodes == [] ==> max == 0
  {
    max := 0;
    for k := 0 to |g.nodes|
      invariant forall i :: 0 <= i < k ==> g.nodes[i].id in depth && depth[g.nodes[i].id] <= max
      invariant k == 0 ==> max == 0
      invariant k > 0 ==> exists i :: 0 <= i < k && g.nodes[i].id in depth && depth[g.nodes[i].id] == max
    {
      assert g.nodes[k] in g.nodes;
      if depth[g.nodes[k].id] > max || k == 0 {
        max := depth[g.nodes[k].id];
      }
    }
  }

  lemma {:induction false} AtDepthNext(nodes: seq<Node>, k: nat, depth: Depths, d: int)
    requires k < |nodes| && nodes[k].id in depth
    ensures AtDepth(nodes[..k + 1], depth, d)
      == if depth[nodes[k].id] == d then AtDepth(nodes[..k], depth, d) + [nodes[k]] else AtDepth(nodes[..k], depth, d)
  {
    assert nodes[..k + 1][..k] == nodes[..k];
  }

  lemma {:induction false} AppendAtDepth(nodes: seq<Node>, k: nat, depth: Depths, raw: seq<seq<Node>>)
    requires k < |nodes| && nodes[k].id in depth && 0 <= depth[nodes[k].id] < |raw|
    requires forall d :: 0 <= d < |raw| ==> raw[d] == AtDepth(nodes[..k], depth, d)
    requires multiset(Flatten(raw)) == multiset(nodes[..k])
    ensures var d := depth[nodes[k].id]; var next := raw[d := raw[d] + [nodes[k]]];
      && (forall i :: 0 <= i < |next| ==> next[i] == AtDepth(nodes[..k + 1], depth, i))
      && multiset(Flatten(next)) == multiset(nodes[..k + 1])
  {
    var d := depth[nodes[k].id];
    var next := raw[d := raw[d] + [nodes[k]]];
    forall i | 0 <= i < |next| ensures next[i] == AtDepth(nodes[..k + 1], depth, i) {
      AtDepthNext(nodes, k, depth, i);
    }
    FlattenAdd(raw, d, nodes[k]);
    assert nodes[..k + 1] == nodes[..k] + [nodes[k]];
  }

  method FillLayers(g: Graph, depth: Depths, max: nat) returns (raw: seq<seq<Node>>)
    requires WellFormed(g) && Sound(g, depth)
    requires forall id {:trigger depth[id]} :: id in depth ==> depth[id] <= max
    ensures Raw(g, depth, raw, max)
    ensures multiset(Flatten(raw)) == multiset(g.nodes)
  {
    raw := seq(max + 1, d => []);
    FlattenEmpties(raw);
    for k := 0 to |g.nodes|
      invariant |raw| == max + 1
      invariant forall d :: 0 <= d < |raw| ==> raw[d] == AtDepth(g.nodes[..k], depth, d)
      invariant multiset(Flatten(raw)) == multiset(g.nodes[..k])
    {
      var n := g.nodes[k];
      assert n in g.nodes;
      AppendAtDepth(g.nodes, k, depth, raw);
      raw := raw[depth[n.id] := raw[depth[n.id]] + [n]];
    }
    assert g.nodes[..|g.nodes|] == g.nodes;
  }
}
