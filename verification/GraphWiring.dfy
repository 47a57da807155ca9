// Validation of an agent graph draft, and the wiring the compiler gives a node set.
module GraphWiring {
  import opened CycleSearch

  const ENTRY := "entry"
  const ANALYTICAL_JOIN := "analytical_join"
  const PERSONA_JOIN := "persona_join"
  const END := "__end__"

  const ANALYTICAL: set<string> :=
    {"fundamentals", "technicals", "valuation", "sentiment", "macro", "news_digest"}
  const PERSONAS: set<string> :=
    {"buffett", "munger", "graham", "wood", "druckenmiller", "burry", "damodaran", "lynch"}
  const EDITABLE: set<string> := ANALYTICAL + PERSONAS
  const STRUCTURAL: set<string> := {"entry", "analytical_join", "persona_join"}
  const TAIL: set<string> := {"risk_manager", "portfolio_manager", "cio"}
  const TAIL_SELECTABLE: set<string> := {"risk_manager", "cio"}

  datatype AgentNode = AgentNode(id: string, ntype: string)

  datatype Issue = Issue(rule: string, subject: string)

  // --- canonical wiring ----------------------------------------------------------------------

  function NodeEdges(n: AgentNode): seq<Edge> {
    if n.ntype in ANALYTICAL then [(ENTRY, n.id), (n.id, ANALYTICAL_JOIN)]
    else if n.ntype in PERSONAS then [(ANALYTICAL_JOIN, n.id), (n.id, PERSONA_JOIN)]
    else []
  }

  ghost predicate Canonical(nodes: seq<AgentNode>, e: Edge) {
    exists i :: 0 <= i < |nodes| && e in NodeEdges(nodes[i])
  }

  method CanonicalEdges(nodes: seq<AgentNode>) returns (edges: seq<Edge>)
    ensures forall e :: e in edges <==> Canonical(nodes, e)
  {
    edges := [];
    for i := 0 to |nodes|
      invariant forall e :: e in edges <==> exists j :: 0 <= j < i && e in NodeEdges(nodes[j])
    {
      var n := nodes[i];
      ghost var before := edges;
      if n.ntype in ANALYTICAL {
        edges := edges + [(ENTRY, n.id)];
        edges := edges + [(n.id, ANALYTICAL_JOIN)];
      } else if n.ntype in PERSONAS {
        edges := edges + [(ANALYTICAL_JOIN, n.id)];
        edges := edges + [(n.id, PERSONA_JOIN)];
      }
      assert edges == before + NodeEdges(n);
    }
  }

  // --- validation ----------------------------------------------------------------------------

  predicate NodeAllowed(n: AgentNode) {
    n.ntype in EDITABLE && n.id == n.ntype
  }

  predicate Once(nodes: seq<AgentNode>, t: string) {
    forall i, j :: 0 <= i < j < |nodes| ==> !(nodes[i].ntype == t && nodes[j].ntype == t)
  }

  // A draft the validator must accept: allowed nodes, each type once, a persona and an analyst, exactly the
  // canonical edges, and tail models only for the tail nodes that have one.
  ghost predicate WellFormed(nodes: seq<AgentNode>, edges: seq<Edge>, tailModels: seq<string>) {
    && NodesWellFormed(nodes)
    && (forall e :: e in edges <==> Canonical(nodes, e))
    && (forall i :: 0 <= i < |tailModels| ==> tailModels[i] in TAIL_SELECTABLE)
  }

  ghost predicate NodesWellFormed(nodes: seq<AgentNode>) {
    && (forall i :: 0 <= i < |nodes| ==> NodeAllowed(nodes[i]))
    && (forall t :: Once(nodes, t))
    && Has(nodes, PERSONAS) && Has(nodes, ANALYTICAL)
  }

  function NodeRule(n: AgentNode): string {
    if n.ntype in STRUCTURAL then "structural_in_nodes"
    else if n.ntype in TAIL then "tail_in_nodes"
    else if n.ntype !in EDITABLE then "unknown_type"
    else if n.id != n.ntype then "id_must_equal_type"
    else ""
  }

  lemma NodeRuleIsExact(n: AgentNode)
    ensures NodeRule(n) == "" <==> NodeAllowed(n)
  {}

  method NodeErrors(nodes: seq<AgentNode>) returns (errors: seq<Issue>)
    ensures errors == [] <==> forall i :: 0 <= i < |nodes| ==> NodeAllowed(nodes[i])
  {
    hide NodeRule, NodeAllowed;
    errors := [];
    for i := 0 to |nodes|
      invariant errors == [] <==> forall j :: 0 <= j < i ==> NodeAllowed(nodes[j])
    {
      var rule := NodeRule(nodes[i]);
      NodeRuleIsExact(nodes[i]);
      if rule != "" {
        errors := errors + [Issue(rule, nodes[i].id)];
      }
    }
  }

  function Count(nodes: seq<AgentNode>, t: string): nat {
    if nodes == [] then 0
    else Count(nodes[..|nodes| - 1], t) + if nodes[|nodes| - 1].ntype == t then 1 else 0
  }

  lemma {:induction false} CountsDuplicates(nodes: seq<AgentNode>, t: string)
    ensures Count(nodes, t) > 0 <==> exists i :: 0 <= i < |nodes| && nodes[i].ntype == t
    ensures Count(nodes, t) <= 1 <==> Once(nodes, t)
  {
    if nodes != [] {
      var n := |nodes| - 1;
      CountsDuplicates(nodes[..n], t);
      if nodes[n].ntype == t {
        assert forall i :: 0 <= i < n ==> nodes[..n][i] == nodes[i];
      }
    }
  }

  ghost predicate Counted(counts: map<string, nat>, nodes: seq<AgentNode>) {
    && (forall t :: t in counts <==> Count(nodes, t) > 0)
    && (forall t :: t in counts ==> counts[t] == Count(nodes, t))
  }

  method TypeCounts(nodes: seq<AgentNode>) returns (counts: map<string, nat>)
    ensures Counted(counts, nodes)
  {
    counts := map[];
    for i := 0 to |nodes|
      invariant Counted(counts, nodes[..i])
    {
      assert nodes[..i + 1][..i] == nodes[..i];
      var t := nodes[i].ntype;
      counts := counts[t := (if t in counts then counts[t] else 0) + 1];
    }
    assert nodes[..|nodes|] == nodes;
  }

  method DuplicateErrors(nodes: seq<AgentNode>) returns (errors: seq<Issue>)
    ensures errors == [] <==> forall t :: Once(nodes, t)
  {
    hide Count, Once;
    var counts := TypeCounts(nodes);
    errors := [];
    var todo := counts.Keys;
    while todo != {}
      invariant todo <= counts.Keys
      invariant errors == [] <==> forall t :: t in counts && t !in todo ==> Once(nodes, t)
      decreases |todo|
    {
      var t :| t in todo;
      CountsDuplicates(nodes, t);
      if counts[t] > 1 {
        errors := errors + [Issue("duplicate_type", t)];
      }
      todo := todo - {t};
    }
    forall t | t !in counts
      ensures Once(nodes, t)
    {
      CountsDuplicates(nodes, t);
    }
  }

  // The walk over a set of edges is in no particular order.
  method UnknownEndpoints(stored: set<Edge>, present: set<string>) returns (errors: seq<Issue>)
    ensures errors == [] <==> forall e :: e in stored ==> e.0 in present && e.1 in present
  {
    errors := [];
    var todo := stored;
    while todo != {}
      invariant todo <= stored
      invariant errors == [] <==> forall e :: e in stored && e !in todo ==> e.0 in present && e.1 in present
      decreases |todo|
    {
      var e :| e in todo;
      if e.0 !in present || e.1 !in present {
        errors := errors + [Issue("edge_unknown_endpoint", e.0)];
      }
      todo := todo - {e};
    }
  }

  // Edges with an unknown end were reported before.
  method EdgesBeyond(extra: set<Edge>, present: set<string>) returns (errors: seq<Issue>)
    ensures errors == [] <==> forall e :: e in extra ==> e.0 !in present || e.1 !in present
  {
    errors := [];
    var todo := extra;
    while todo != {}
      invariant todo <= extra
      invariant errors == [] <==> forall e :: e in extra && e !in todo ==> e.0 !in present || e.1 !in present
      decreases |todo|
    {
      var e :| e in todo;
      if e.0 in present && e.1 in present {
        errors := errors + [Issue("edge_not_canonical", e.0)];
      }
      todo := todo - {e};
    }
  }

  method Orphans(missing: set<Edge>) returns (errors: seq<Issue>)
    ensures errors == [] <==> missing == {}
  {
    errors := [];
    var todo := missing;
    while todo != {}
      invariant todo <= missing
      invariant errors == [] <==> missing <= todo
      decreases |todo|
    {
      var e :| e in todo;
      errors := errors + [Issue("orphan_node", if e.0 in STRUCTURAL then e.1 else e.0)];
      todo := todo - {e};
    }
  }

  // Edges that are not canonical are refused, and so are missing ones.
  method EdgeErrors(stored: set<Edge>, canonical: set<Edge>, present: set<string>) returns (errors: seq<Issue>)
    ensures errors == [] <==> stored == canonical && forall e :: e in stored ==> e.0 in present && e.1 in present
  {
    var unknown := UnknownEndpoints(stored, present);
    var beyond := EdgesBeyond(stored - canonical, present);
    var orphans := Orphans(canonical - stored);
    errors := unknown + beyond + orphans;
    if unknown == [] && beyond == [] {
      assert forall e :: e in stored - canonical ==> e in stored;
      assert stored - canonical == {};
      assert stored <= canonical;
    }
  }

  predicate Has(nodes: seq<AgentNode>, types: set<string>) {
    exists i :: 0 <= i < |nodes| && nodes[i].ntype in types
  }

  function EditableNodes(nodes: seq<AgentNode>): (r: seq<AgentNode>) {
    if nodes == [] then []
    else
      var n := nodes[|nodes| - 1];
      EditableNodes(nodes[..|nodes| - 1]) + if n.ntype in EDITABLE then [n] else []
  }

  // Only editable nodes contribute edges, so filtering first changes nothing.
  lemma {:induction false} EditableWiring(nodes: seq<AgentNode>, e: Edge)
    ensures Canonical(EditableNodes(nodes), e) <==> Canonical(nodes, e)
    ensures forall n :: n in EditableNodes(nodes) <==> n in nodes && n.ntype in EDITABLE
  {
    hide NodeEdges;
    if nodes != [] {
      var n := nodes[|nodes| - 1];
      EditableWiring(nodes[..|nodes| - 1], e);
      NoEdges(n);
      assert nodes == nodes[..|nodes| - 1] + [n];
      CanonicalAppend(nodes[..|nodes| - 1], n, e);
      CanonicalAppend(EditableNodes(nodes[..|nodes| - 1]), n, e);
      assert EditableNodes(nodes[..|nodes| - 1]) + [] == EditableNodes(nodes[..|nodes| - 1]);
    }
  }

  lemma NoEdges(n: AgentNode)
    ensures n.ntype !in EDITABLE ==> NodeEdges(n) == []
  {}

  lemma CanonicalAppend(nodes: seq<AgentNode>, n: AgentNode, e: Edge)
    ensures Canonical(nodes + [n], e) <==> Canonical(nodes, e) || e in NodeEdges(n)
  {
    var more := nodes + [n];
    if Canonical(nodes, e) {
      var i :| 0 <= i < |nodes| && e in NodeEdges(nodes[i]);
      assert more[i] == nodes[i];
    }
    if e in NodeEdges(n) {
      assert more[|nodes|] == n;
    }
  }

  ghost function CanonicalSet(nodes: seq<AgentNode>): (r: set<Edge>)
    ensures forall e :: e in r <==> Canonical(nodes, e)
  {
    if nodes == [] then {}
    else
      var n := nodes[|nodes| - 1];
      CanonicalSplit(nodes);
      CanonicalSet(nodes[..|nodes| - 1]) + set e | e in NodeEdges(n)
  }

  lemma CanonicalSplit(nodes: seq<AgentNode>)
    requires nodes != []
    ensures forall e :: Canonical(nodes, e)
                   <==> Canonical(nodes[..|nodes| - 1], e) || e in NodeEdges(nodes[|nodes| - 1])
  {
    forall e
      ensures Canonical(nodes, e) <==> Canonical(nodes[..|nodes| - 1], e) || e in NodeEdges(nodes[|nodes| - 1])
    {
      CanonicalAppend(nodes[..|nodes| - 1], nodes[|nodes| - 1], e);
      assert nodes == nodes[..|nodes| - 1] + [nodes[|nodes| - 1]];
    }
  }

  // How far along the pipeline a node sits.
  function Rank(n: Node): int {
    if n == ENTRY then 0
    else if n in ANALYTICAL then 1
    else if n == ANALYTICAL_JOIN then 2
    else if n in PERSONAS then 3
    else if n == PERSONA_JOIN then 4
    else if n == "risk_manager" then 5
    else if n == "portfolio_manager" then 6
    else if n == "cio" then 7
    else 8
  }

  lemma NodeEdgesRise(n: AgentNode, e: Edge)
    requires NodeAllowed(n) && e in NodeEdges(n)
    ensures Rank(e.0) < Rank(e.1)
    ensures e.0 in STRUCTURAL + {n.id} && e.1 in STRUCTURAL + {n.id}
  {}

  lemma CanonicalRises(nodes: seq<AgentNode>, e: Edge)
    requires Canonical(nodes, e) && forall i :: 0 <= i < |nodes| ==> NodeAllowed(nodes[i])
    ensures Rank(e.0) < Rank(e.1)
    ensures e.0 in STRUCTURAL || exists i :: 0 <= i < |nodes| && nodes[i].id == e.0
    ensures e.1 in STRUCTURAL || exists i :: 0 <= i < |nodes| && nodes[i].id == e.1
  {
    hide Rank, NodeEdges, NodeAllowed;
    var i :| 0 <= i < |nodes| && e in NodeEdges(nodes[i]);
    NodeEdgesRise(nodes[i], e);
  }

  method NodeSetErrors(nodes: seq<AgentNode>) returns (errors: seq<Issue>)
    ensures errors == [] <==> NodesWellFormed(nodes)
  {
    hide NodeAllowed, Once, Has;
    errors := NodeErrors(nodes);
    var duplicates := DuplicateErrors(nodes);
    errors := errors + duplicates;
    if !Has(nodes, PERSONAS) {
      errors := errors + [Issue("no_persona", "")];
    }
    if !Has(nodes, ANALYTICAL) {
      errors := errors + [Issue("no_analytical", "")];
    }
  }

  method TailErrors(tailModels: seq<string>) returns (errors: seq<Issue>)
    ensures errors == [] <==> forall i :: 0 <= i < |tailModels| ==> tailModels[i] in TAIL_SELECTABLE
  {
    errors := [];
    for k := 0 to |tailModels|
      invariant errors == [] <==> forall j :: 0 <= j < k ==> tailModels[j] in TAIL_SELECTABLE
    {
      if tailModels[k] !in TAIL_SELECTABLE {
        errors := errors + [Issue("tail_model_invalid_key", tailModels[k])];
      }
    }
  }

  // The validator accepts a draft exactly when it is well formed. A cycle is never the only fault.
  method ValidateGraph(nodes: seq<AgentNode>, edges: seq<Edge>, tailModels: seq<string>)
    returns (errors: seq<Issue>)
    ensures errors == [] <==> WellFormed(nodes, edges, tailModels)
  {
    hide NodesWellFormed, EditableNodes, Canonical, Cyclic;
    var nodeErrors := NodeSetErrors(nodes);
    var editable := EditableNodes(nodes);
    var present := (set n | n in editable :: n.id) + STRUCTURAL;
    var stored := set e | e in edges;
    var wiring := CanonicalEdges(editable);
    var canonical := set e | e in wiring;
    var edgeErrors := EdgeErrors(stored, canonical, present);
    var cyclic := HasCycle(stored);
    StoredIsCanonical(nodes, editable, edges, stored, canonical, present);
    var tailErrors := TailErrors(tailModels);
    errors := nodeErrors + edgeErrors + (if cyclic then [Issue("cycle", "")] else []) + tailErrors;
  }

  lemma StoredIsCanonical(
      nodes: seq<AgentNode>, editable: seq<AgentNode>, edges: seq<Edge>, stored: set<Edge>, canonical: set<Edge>,
      present: set<string>)
    requires editable == EditableNodes(nodes) && stored == (set e | e in edges)
    requires forall e :: e in canonical <==> Canonical(editable, e)
    requires present == (set n | n in editable :: n.id) + STRUCTURAL
    ensures stored == canonical <==> forall e :: e in edges <==> Canonical(nodes, e)
    ensures NodesWellFormed(nodes) && stored == canonical ==>
              !Cyclic(stored) && forall e :: e in stored ==> e.0 in present && e.1 in present
  {
    hide NodeAllowed, NodeEdges, Rank;
    forall e
      ensures e in canonical <==> Canonical(nodes, e)
    {
      EditableWiring(nodes, e);
    }
    if NodesWellFormed(nodes) && stored == canonical {
      forall e | e in stored
        ensures Rank(e.0) < Rank(e.1) && e.0 in present && e.1 in present
      {
        EditableWiring(nodes, e);
        CanonicalRises(nodes, e);
        AllPresent(nodes, editable, present, e);
      }
      RankedIsAcyclic(stored, n => Rank(n));
    }
  }

  lemma AllPresent(nodes: seq<AgentNode>, editable: seq<AgentNode>, present: set<string>, e: Edge)
    requires forall i :: 0 <= i < |nodes| ==> NodeAllowed(nodes[i])
    requires forall n :: n in editable <==> n in nodes && n.ntype in EDITABLE
    requires present == (set n | n in editable :: n.id) + STRUCTURAL
    requires e.0 in STRUCTURAL || exists i :: 0 <= i < |nodes| && nodes[i].id == e.0
    requires e.1 in STRUCTURAL || exists i :: 0 <= i < |nodes| && nodes[i].id == e.1
    ensures e.0 in present && e.1 in present
  {
    forall i | 0 <= i < |nodes|
      ensures nodes[i].id in present
    {
      assert NodeAllowed(nodes[i]) && nodes[i] in nodes;
      assert nodes[i] in editable;
    }
  }

  // --- compilation ---------------------------------------------------------------------------

  const TAIL_EDGES: set<Edge> :=
    {("persona_join", "risk_manager"), ("risk_manager", "portfolio_manager"), ("portfolio_manager", "cio"),
     ("cio", "__end__")}

  // The nodes every compiled graph has.
  const FIXED: set<string> :=
    {"entry", "analytical_join", "persona_join", "risk_manager", "portfolio_manager", "cio", "__end__"}

  // The compiler drops unknown and non-editable types and names nodes by their type.
  function AsCompiled(n: AgentNode): AgentNode {
    AgentNode(n.ntype, n.ntype)
  }

  ghost predicate CompiledEdge(nodes: seq<AgentNode>, e: Edge) {
    e in TAIL_EDGES || exists i :: 0 <= i < |nodes| && e in NodeEdges(AsCompiled(nodes[i]))
  }

  // The agent names of the two kinds, in node order; anything else is dropped.
  method Collect(nodes: seq<AgentNode>) returns (analytical: seq<string>, personas: seq<string>)
    ensures forall t :: t in analytical <==> t in ANALYTICAL && Named(nodes, t)
    ensures forall t :: t in personas <==> t in PERSONAS && Named(nodes, t)
  {
    analytical, personas := [], [];
    for i := 0 to |nodes|
      invariant forall t :: t in analytical <==> t in ANALYTICAL && Named(nodes[..i], t)
      invariant forall t :: t in personas <==> t in PERSONAS && Named(nodes[..i], t)
    {
      AnalyticalIsNotPersona(nodes[i].ntype);
      NamedAppend(nodes, i);
      if nodes[i].ntype in ANALYTICAL {
        analytical := analytical + [nodes[i].ntype];
      } else if nodes[i].ntype in PERSONAS {
        personas := personas + [nodes[i].ntype];
      }
    }
    assert nodes[..|nodes|] == nodes;
  }

  ghost predicate Named(nodes: seq<AgentNode>, t: string) {
    exists j :: 0 <= j < |nodes| && nodes[j].ntype == t
  }

  lemma NamedAppend(nodes: seq<AgentNode>, i: nat)
    requires i < |nodes|
    ensures forall t :: Named(nodes[..i + 1], t) <==> Named(nodes[..i], t) || nodes[i].ntype == t
  {
    forall t
      ensures Named(nodes[..i + 1], t) <==> Named(nodes[..i], t) || nodes[i].ntype == t
    {
      if Named(nodes[..i], t) {
        var j :| 0 <= j < i && nodes[..i][j].ntype == t;
        assert nodes[..i + 1][j].ntype == t;
      }
      assert nodes[..i + 1][i] == nodes[i];
    }
  }

  method Wire(names: seq<string>, from: Node, to: Node) returns (edges: set<Edge>)
    ensures edges == EdgesVia(names, from, to)
  {
    edges := {};
    for i := 0 to |names|
      invariant edges == EdgesVia(names[..i], from, to)
    {
      assert names[..i + 1] == names[..i] + [names[i]];
      edges := edges + {(from, names[i])};
      edges := edges + {(names[i], to)};
    }
    assert names[..|names|] == names;
  }

  method CompileGraph(nodes: seq<AgentNode>) returns (edges: set<Edge>)
    ensures forall e :: e in edges <==> CompiledEdge(nodes, e)
  {
    hide EdgesVia, CompiledEdge;
    var analytical, personas := Collect(nodes);
    edges := Wire(analytical, ENTRY, ANALYTICAL_JOIN);
    var more := Wire(personas, ANALYTICAL_JOIN, PERSONA_JOIN);
    edges := edges + more + TAIL_EDGES;
    forall e
      ensures e in edges <==> CompiledEdge(nodes, e)
    {
      CompiledFrom(nodes, analytical, personas, e);
    }
  }

  ghost function EdgesVia(names: seq<string>, from: Node, to: Node): set<Edge> {
    (set t | t in names :: (from, t)) + (set t | t in names :: (t, to))
  }

  lemma AnalyticalIsNotPersona(t: string)
    ensures !(t in ANALYTICAL && t in PERSONAS)
  {}

  lemma CompiledFrom(nodes: seq<AgentNode>, analytical: seq<string>, personas: seq<string>, e: Edge)
    requires forall t :: t in analytical <==> t in ANALYTICAL && Named(nodes, t)
    requires forall t :: t in personas <==> t in PERSONAS && Named(nodes, t)
    ensures e in EdgesVia(analytical, ENTRY, ANALYTICAL_JOIN) + EdgesVia(personas, ANALYTICAL_JOIN, PERSONA_JOIN)
                 + TAIL_EDGES
       <==> CompiledEdge(nodes, e)
  {
    forall i | 0 <= i < |nodes|
      ensures e in NodeEdges(AsCompiled(nodes[i])) <==>
                (nodes[i].ntype in analytical
                 && (e == (ENTRY, nodes[i].ntype) || e == (nodes[i].ntype, ANALYTICAL_JOIN)))
                || (nodes[i].ntype in personas
                    && (e == (ANALYTICAL_JOIN, nodes[i].ntype) || e == (nodes[i].ntype, PERSONA_JOIN)))
    {
      AnalyticalIsNotPersona(nodes[i].ntype);
    }
  }

  ghost predicate OnPath(edges: set<Edge>, n: Node) {
    exists before, after ::
      IsWalk(before, edges) && IsWalk(after, edges) && before != [] && after != []
      && before[0] == ENTRY && before[|before| - 1] == n && after[0] == n && after[|after| - 1] == END
  }

  // A draft accepted by the validator compiles to its own edges plus the fixed tail; the result has no cycle
  // and every node, tail included, lies on a path from the entry to the end.
  lemma ValidDraftCompiles(
      nodes: seq<AgentNode>, edges: seq<Edge>, tailModels: seq<string>, compiled: set<Edge>)
    requires WellFormed(nodes, edges, tailModels)
    requires forall e :: e in compiled <==> CompiledEdge(nodes, e)
    ensures compiled == (set e | e in edges) + TAIL_EDGES
    ensures !Cyclic(compiled)
    ensures forall n :: n in NodesOf(compiled) ==> OnPath(compiled, n)
  {
    hide NodeAllowed, NodeEdges, Rank, OnPath, NodesOf;
    forall e
      ensures e in compiled <==> e in (set e | e in edges) + TAIL_EDGES
    {
      CompiledIsCanonical(nodes, e);
    }
    forall e | e in compiled
      ensures Rank(e.0) < Rank(e.1)
    {
      if e in TAIL_EDGES {
        TailRises(e);
      } else {
        CanonicalRises(nodes, e);
      }
    }
    RankedIsAcyclic(compiled, n => Rank(n));
    forall n | n in NodesOf(compiled)
      ensures OnPath(compiled, n)
    {
      NodeIsOnPath(nodes, compiled, n);
    }
  }

  lemma TailRises(e: Edge)
    requires e in TAIL_EDGES
    ensures Rank(e.0) < Rank(e.1)
  {}

  lemma CompiledIsCanonical(nodes: seq<AgentNode>, e: Edge)
    requires forall i :: 0 <= i < |nodes| ==> NodeAllowed(nodes[i])
    ensures CompiledEdge(nodes, e) <==> e in TAIL_EDGES || Canonical(nodes, e)
  {
    hide NodeEdges;
    forall i | 0 <= i < |nodes|
      ensures AsCompiled(nodes[i]) == nodes[i]
    {
      assert NodeAllowed(nodes[i]);
    }
  }

  lemma PathVia(edges: set<Edge>, before: seq<Node>, after: seq<Node>, n: Node)
    requires IsWalk(before, edges) && IsWalk(after, edges) && before != [] && after != []
    requires before[0] == ENTRY && before[|before| - 1] == n && after[0] == n && after[|after| - 1] == END
    ensures OnPath(edges, n)
  {}

  lemma NodeIsOnPath(nodes: seq<AgentNode>, compiled: set<Edge>, n: Node)
    requires NodesWellFormed(nodes)
    requires forall e :: e in compiled <==> e in TAIL_EDGES || Canonical(nodes, e)
    requires n in NodesOf(compiled)
    ensures OnPath(compiled, n)
  {
    hide NodeAllowed, OnPath, Canonical, Once;
    var a :| 0 <= a < |nodes| && nodes[a].ntype in ANALYTICAL;
    var p :| 0 <= p < |nodes| && nodes[p].ntype in PERSONAS;
    AnalyticalIsNotPersona(nodes[p].ntype);
    WiredIn(nodes, compiled, a);
    WiredIn(nodes, compiled, p);
    Spine(compiled, nodes[a].id, nodes[p].id);
    if n !in FIXED {
      var i := NodeBehind(nodes, compiled, n);
      EitherSide(nodes, compiled, a, p, i);
    }
  }

  // Any other node takes the place of the analyst or of the persona on that path.
  lemma EitherSide(nodes: seq<AgentNode>, compiled: set<Edge>, a: nat, p: nat, i: nat)
    requires forall j :: 0 <= j < |nodes| ==> NodeAllowed(nodes[j])
    requires forall e :: e in compiled <==> e in TAIL_EDGES || Canonical(nodes, e)
    requires a < |nodes| && nodes[a].ntype in ANALYTICAL && p < |nodes| && nodes[p].ntype !in ANALYTICAL
    requires i < |nodes|
    ensures OnPath(compiled, nodes[i].id)
  {
    hide NodeAllowed, OnPath, Canonical;
    WiredIn(nodes, compiled, a);
    WiredIn(nodes, compiled, p);
    WiredIn(nodes, compiled, i);
    if nodes[i].ntype in ANALYTICAL {
      Spine(compiled, nodes[i].id, nodes[p].id);
    } else {
      Spine(compiled, nodes[a].id, nodes[i].id);
    }
  }

  lemma NodeBehind(nodes: seq<AgentNode>, compiled: set<Edge>, n: Node) returns (i: nat)
    requires forall j :: 0 <= j < |nodes| ==> NodeAllowed(nodes[j])
    requires forall e :: e in compiled <==> e in TAIL_EDGES || Canonical(nodes, e)
    requires n in NodesOf(compiled)
    requires n !in FIXED
    ensures i < |nodes| && nodes[i].id == n
  {
    hide NodeAllowed, NodeEdges, Rank;
    var e :| e in compiled && (e.0 == n || e.1 == n);
    CanonicalRises(nodes, e);
    i :| 0 <= i < |nodes| && nodes[i].id == n;
  }

  lemma WiredIn(nodes: seq<AgentNode>, compiled: set<Edge>, i: nat)
    requires forall j :: 0 <= j < |nodes| ==> NodeAllowed(nodes[j])
    requires forall e :: e in compiled <==> e in TAIL_EDGES || Canonical(nodes, e)
    requires i < |nodes|
    ensures TAIL_EDGES <= compiled
    ensures nodes[i].ntype in ANALYTICAL ==>
              (ENTRY, nodes[i].id) in compiled && (nodes[i].id, ANALYTICAL_JOIN) in compiled
    ensures nodes[i].ntype !in ANALYTICAL ==>
              (ANALYTICAL_JOIN, nodes[i].id) in compiled && (nodes[i].id, PERSONA_JOIN) in compiled
  {
    assert NodeAllowed(nodes[i]);
    var es := NodeEdges(nodes[i]);
    forall k | 0 <= k < |es|
      ensures es[k] in compiled
    {
      assert es[k] in NodeEdges(nodes[i]);
      assert Canonical(nodes, es[k]);
    }
    assert es[0] in compiled && es[1] in compiled;
  }

  // entry -> analyst -> join -> persona -> join -> risk -> portfolio -> cio -> end
  lemma Spine(compiled: set<Edge>, x: Node, y: Node)
    requires TAIL_EDGES <= compiled
    requires (ENTRY, x) in compiled && (x, ANALYTICAL_JOIN) in compiled
    requires (ANALYTICAL_JOIN, y) in compiled && (y, PERSONA_JOIN) in compiled
    ensures OnPath(compiled, x) && OnPath(compiled, y)
    ensures forall n :: n in FIXED ==> OnPath(compiled, n)
  {
    hide OnPath;
    var spine :=
      [ENTRY, x, ANALYTICAL_JOIN, y, PERSONA_JOIN, "risk_manager", "portfolio_manager", "cio", END];
    assert IsWalk(spine, compiled);
    forall k | 0 <= k < |spine|
      ensures OnPath(compiled, spine[k])
    {
      assert spine[..k + 1][k] == spine[k];
      PathVia(compiled, spine[..k + 1], spine[k..], spine[k]);
    }
    assert OnPath(compiled, spine[0]) && OnPath(compiled, spine[1]) && OnPath(compiled, spine[2]);
    assert OnPath(compiled, spine[3]) && OnPath(compiled, spine[4]) && OnPath(compiled, spine[5]);
    assert OnPath(compiled, spine[6]) && OnPath(compiled, spine[7]) && OnPath(compiled, spine[8]);
  }
}
