/**
 * What JenaRDFParser produces, as functions of its input and of the parser's
 * blank-node map. The parser's methods are proved to change the dataset
 * exactly as these functions say, taking the map as it stands after the
 * import: the map only grows and an entry once made never changes
 * (BlankNames.NameMapGrows), so the identity a quad received when it was
 * added is the one the final map gives.
 */
module Conversion {
  import opened Rdf
  import opened BlankNames
  import opened Dataset

  // ---------------------------------------------------------------------
  // Node identity (getID)

  /** The blank labels that resolving a node looks up. */
  function NodeLabels(n: Node): seq<string> {
    if n.Blank? then [n.blankLabel] else []
  }

  function TermLabels(t: Term): seq<string> {
    if t.Resource? then NodeLabels(t.node) else []
  }

  /** The labels one statement looks up: its subject's, then its object's. */
  function TripleLabels(t: Triple): seq<string> {
    NodeLabels(t.subject) + TermLabels(t.obj)
  }

  predicate NodeKnown(names: map<string, string>, n: Node) {
    n.Blank? ==> n.blankLabel in names
  }

  predicate TermKnown(names: map<string, string>, t: Term) {
    t.Resource? ==> NodeKnown(names, t.node)
  }

  predicate TripleKnown(names: map<string, string>, t: Triple) {
    NodeKnown(names, t.subject) && TermKnown(names, t.obj)
  }

  predicate GraphKnown(names: map<string, string>, g: seq<Triple>) {
    forall i :: 0 <= i < |g| ==> TripleKnown(names, g[i])
  }

  /** The identity getID returns: an IRI verbatim, a blank node the name
      the map holds for its label. */
  function IdOf(names: map<string, string>, n: Node): string
    requires NodeKnown(names, n)
  {
    match n
    case Iri(uri) => uri
    case Blank(l) => names[l]
  }

  /** A node keeps its identity as the map grows. */
  lemma IdStable(names: map<string, string>, later: map<string, string>, n: Node)
    requires Extends(names, later)
    requires NodeKnown(names, n)
    ensures NodeKnown(later, n) && IdOf(later, n) == IdOf(names, n)
  {
  }

  /** An IRI that cannot be mistaken for a blank-node identifier. */
  predicate ProperNode(n: Node) {
    n.Iri? ==> !(BlankPrefix <= n.uri)
  }

  /** Identities are injective on IRIs that do not look like blank-node
      identifiers, when the map itself is injective (BlankNames.NameMapInjective). */
  lemma IdInjective(names: map<string, string>, m: Node, n: Node)
    requires InjectiveNames(names) && BlankIdentifiers(names)
    requires NodeKnown(names, m) && NodeKnown(names, n)
    requires ProperNode(m) && ProperNode(n)
    requires IdOf(names, m) == IdOf(names, n)
    ensures m == n
  {
  }

  /** Without that condition identities collide: an IRI that reads as an
      issued name has the identity of the blank node holding that name. */
  lemma IriBlankCollision()
    ensures IdOf(map["x" := "_:t1"], Iri("_:t1")) == IdOf(map["x" := "_:t1"], Blank("x"))
    ensures Iri("_:t1") != Blank("x")
  {
  }

  // ---------------------------------------------------------------------
  // Literals

  /** Jena's empty language tag becomes an absent one; any other is kept. */
  function NormalizeLanguage(language: string): (r: Option<string>)
    ensures r != Some("")
    ensures LanguageTag(r) == language
  {
    if language == "" then None else Some(language)
  }

  /** The language tag as Jena reports it: the empty string when absent. */
  function LanguageTag(language: Option<string>): string {
    match language
    case None => ""
    case Some(tag) => tag
  }

  /** The object a statement's object becomes in its triple or quad. */
  function ObjectOf(names: map<string, string>, t: Term): QuadObject
    requires TermKnown(names, t)
  {
    match t
    case Literal(lexicalForm, datatypeUri, language) =>
      LiteralValue(lexicalForm, datatypeUri, NormalizeLanguage(language))
    case Resource(n) => NodeRef(IdOf(names, n))
  }

  /** The quad one statement becomes when it is filed under graphName. */
  function ToQuad(names: map<string, string>, t: Triple, graphName: string): Quad
    requires TripleKnown(names, t)
  {
    Quad(IdOf(names, t.subject), t.predicateUri, ObjectOf(names, t.obj), graphName)
  }

  predicate ProperTriple(t: Triple) {
    ProperNode(t.subject) && (t.obj.Resource? ==> ProperNode(t.obj.node))
  }

  /** No information is lost: the quad determines the statement it came from. */
  lemma ToQuadInjective(names: map<string, string>, s: Triple, t: Triple, graphName: string)
    requires InjectiveNames(names) && BlankIdentifiers(names)
    requires TripleKnown(names, s) && TripleKnown(names, t)
    requires ProperTriple(s) && ProperTriple(t)
    requires ToQuad(names, s, graphName) == ToQuad(names, t, graphName)
    ensures s == t
  {
    IdInjective(names, s.subject, t.subject);
    match s.obj
    case Literal(_, _, language) =>
      assert t.obj.Literal?;
      assert LanguageTag(NormalizeLanguage(language)) == LanguageTag(NormalizeLanguage(t.obj.language));
    case Resource(n) =>
      assert t.obj.Resource?;
      IdInjective(names, n, t.obj.node);
  }

  // ---------------------------------------------------------------------
  // One graph (importGraph)

  /** The blank labels importing graph g looks up, in order. */
  function GraphLabels(g: seq<Triple>): seq<string>
    decreases |g|
  {
    if g == [] then [] else GraphLabels(g[..|g| - 1]) + TripleLabels(g[|g| - 1])
  }

  lemma GraphKnownPrefix(names: map<string, string>, g: seq<Triple>, n: nat)
    requires GraphKnown(names, g) && n <= |g|
    ensures GraphKnown(names, g[..n])
  {
    assert forall i :: 0 <= i < n ==> g[..n][i] == g[i];
  }

  /** The quads importing graph g files under graphName, in order. */
  function GraphQuads(names: map<string, string>, g: seq<Triple>, graphName: string): seq<Quad>
    requires GraphKnown(names, g)
    decreases |g|
  {
    if g == [] then []
    else
      GraphKnownPrefix(names, g, |g| - 1);
      GraphQuads(names, g[..|g| - 1], graphName) + [ToQuad(names, g[|g| - 1], graphName)]
  }

  /** One quad per statement, in the statements' order, each filed under graphName. */
  lemma {:induction false} GraphQuadsAt(names: map<string, string>, g: seq<Triple>, graphName: string)
    requires GraphKnown(names, g)
    ensures |GraphQuads(names, g, graphName)| == |g|
    ensures forall i :: 0 <= i < |g| ==> GraphQuads(names, g, graphName)[i] == ToQuad(names, g[i], graphName)
    decreases |g|
  {
    if g != [] {
      GraphKnownPrefix(names, g, |g| - 1);
      GraphQuadsAt(names, g[..|g| - 1], graphName);
    }
  }

  /** Adding one statement at the end adds its quad at the end. */
  lemma GraphQuadsSnoc(names: map<string, string>, g: seq<Triple>, t: Triple, graphName: string)
    requires GraphKnown(names, g) && TripleKnown(names, t)
    ensures GraphKnown(names, g + [t])
    ensures GraphQuads(names, g + [t], graphName) == GraphQuads(names, g, graphName) + [ToQuad(names, t, graphName)]
  {
    assert (g + [t])[..|g|] == g;
  }

  lemma GraphLabelsSnoc(g: seq<Triple>, t: Triple)
    ensures GraphLabels(g + [t]) == GraphLabels(g) + TripleLabels(t)
  {
    assert (g + [t])[..|g|] == g;
  }

  lemma GraphKnownConcat(names: map<string, string>, a: seq<Triple>, b: seq<Triple>)
    requires GraphKnown(names, a) && GraphKnown(names, b)
    ensures GraphKnown(names, a + b)
  {
    forall i | 0 <= i < |a + b|
      ensures TripleKnown(names, (a + b)[i])
    {
      if i < |a| {
        assert (a + b)[i] == a[i];
      } else {
        assert (a + b)[i] == b[i - |a|];
      }
    }
  }

  /** Importing two lists of statements one after the other gives the
      quads of each, in order. */
  lemma GraphQuadsConcat(names: map<string, string>, a: seq<Triple>, b: seq<Triple>, graphName: string)
    requires GraphKnown(names, a) && GraphKnown(names, b)
    ensures GraphKnown(names, a + b)
    ensures GraphQuads(names, a + b, graphName) == GraphQuads(names, a, graphName) + GraphQuads(names, b, graphName)
  {
    GraphKnownConcat(names, a, b);
    GraphQuadsAt(names, a + b, graphName);
    GraphQuadsAt(names, a, graphName);
    GraphQuadsAt(names, b, graphName);
    var q, qa, qb := GraphQuads(names, a + b, graphName), GraphQuads(names, a, graphName), GraphQuads(names, b, graphName);
    forall i | 0 <= i < |q|
      ensures q[i] == (qa + qb)[i]
    {
      if i < |a| {
        assert (a + b)[i] == a[i];
      } else {
        assert (a + b)[i] == b[i - |a|];
      }
    }
  }

  lemma GraphKnownMono(names: map<string, string>, later: map<string, string>, g: seq<Triple>)
    requires Extends(names, later) && GraphKnown(names, g)
    ensures GraphKnown(later, g)
  {
  }

  /** The quads of a graph do not change as further names are recorded. */
  lemma {:induction false} GraphQuadsStable(names: map<string, string>, later: map<string, string>, g: seq<Triple>, graphName: string)
    requires Extends(names, later) && GraphKnown(names, g)
    ensures GraphKnown(later, g)
    ensures GraphQuads(later, g, graphName) == GraphQuads(names, g, graphName)
    decreases |g|
  {
    if g != [] {
      var t := g[|g| - 1];
      GraphKnownPrefix(names, g, |g| - 1);
      GraphQuadsStable(names, later, g[..|g| - 1], graphName);
      IdStable(names, later, t.subject);
      if t.obj.Resource? {
        IdStable(names, later, t.obj.node);
      }
    }
  }

  // ---------------------------------------------------------------------
  // One subject (importResource)

  /** `listStatements(subject, null, null)`: the statements about s, in order. */
  function StatementsAbout(statements: seq<Triple>, s: Node): (r: seq<Triple>)
    ensures forall i :: 0 <= i < |r| ==> r[i].subject == s
    decreases |statements|
  {
    if statements == [] then []
    else
      var last := statements[|statements| - 1];
      StatementsAbout(statements[..|statements| - 1], s) + (if last.subject == s then [last] else [])
  }

  /** The filter keeps every statement about s as often as it occurs, and no other. */
  lemma {:induction false} StatementsAboutCount(statements: seq<Triple>, s: Node, t: Triple)
    ensures multiset(StatementsAbout(statements, s))[t] == if t.subject == s then multiset(statements)[t] else 0
    decreases |statements|
  {
    if statements != [] {
      var init, last := statements[..|statements| - 1], statements[|statements| - 1];
      StatementsAboutCount(init, s, t);
      assert statements == init + [last];
    }
  }

  /** The blank labels the objects of statements look up, in order. */
  function ObjectLabels(statements: seq<Triple>): seq<string>
    decreases |statements|
  {
    if statements == [] then []
    else ObjectLabels(statements[..|statements| - 1]) + TermLabels(statements[|statements| - 1].obj)
  }

  lemma ObjectLabelsSnoc(statements: seq<Triple>, t: Triple)
    ensures ObjectLabels(statements + [t]) == ObjectLabels(statements) + TermLabels(t.obj)
  {
    assert (statements + [t])[..|statements|] == statements;
  }

  /** The blank labels importing subject s looks up: the subject's once, then each object's. */
  function ResourceLabels(s: Node, statements: seq<Triple>): seq<string> {
    NodeLabels(s) + ObjectLabels(StatementsAbout(statements, s))
  }

  // ---------------------------------------------------------------------
  // A whole model (importModel)

  /** The blank labels importing every subject in turn looks up. */
  function ModelLabels(subjects: seq<Node>, statements: seq<Triple>): seq<string>
    decreases |subjects|
  {
    if subjects == [] then []
    else ModelLabels(subjects[..|subjects| - 1], statements) + ResourceLabels(subjects[|subjects| - 1], statements)
  }

  predicate SubjectsKnown(names: map<string, string>, subjects: seq<Node>, statements: seq<Triple>) {
    forall i :: 0 <= i < |subjects| ==> GraphKnown(names, StatementsAbout(statements, subjects[i]))
  }

  /** The statements importing every subject in turn visits, in order. */
  function ModelStatements(subjects: seq<Node>, statements: seq<Triple>): seq<Triple>
    decreases |subjects|
  {
    if subjects == [] then []
    else ModelStatements(subjects[..|subjects| - 1], statements) + StatementsAbout(statements, subjects[|subjects| - 1])
  }

  lemma ModelStatementsSnoc(subjects: seq<Node>, s: Node, statements: seq<Triple>)
    ensures ModelStatements(subjects + [s], statements) == ModelStatements(subjects, statements) + StatementsAbout(statements, s)
    ensures ModelLabels(subjects + [s], statements) == ModelLabels(subjects, statements) + ResourceLabels(s, statements)
  {
    assert (subjects + [s])[..|subjects|] == subjects;
  }

  /** Subjects already known stay known as the map grows, and one more
      subject whose statements are known can join them. */
  lemma SubjectsKnownSnoc(names: map<string, string>, later: map<string, string>,
                          subjects: seq<Node>, s: Node, statements: seq<Triple>)
    requires Extends(names, later) && SubjectsKnown(names, subjects, statements)
    requires GraphKnown(later, StatementsAbout(statements, s))
    ensures SubjectsKnown(later, subjects + [s], statements)
  {
    forall i | 0 <= i < |subjects|
      ensures GraphKnown(later, StatementsAbout(statements, subjects[i]))
    {
      GraphKnownMono(names, later, StatementsAbout(statements, subjects[i]));
    }
    assert forall i :: 0 <= i < |subjects| ==> (subjects + [s])[i] == subjects[i];
  }

  lemma {:induction false} ModelStatementsKnown(names: map<string, string>, subjects: seq<Node>, statements: seq<Triple>)
    requires SubjectsKnown(names, subjects, statements)
    ensures GraphKnown(names, ModelStatements(subjects, statements))
    decreases |subjects|
  {
    if subjects != [] {
      var init := subjects[..|subjects| - 1];
      assert SubjectsKnown(names, init, statements) by {
        assert forall i :: 0 <= i < |init| ==> init[i] == subjects[i];
      }
      ModelStatementsKnown(names, init, statements);
      GraphQuadsConcat(names, ModelStatements(init, statements),
        StatementsAbout(statements, subjects[|subjects| - 1]), DefaultGraph);
    }
  }

  /** The triples importing a model adds to the default graph. */
  function ModelQuads(names: map<string, string>, subjects: seq<Node>, statements: seq<Triple>): seq<Quad>
    requires SubjectsKnown(names, subjects, statements)
  {
    ModelStatementsKnown(names, subjects, statements);
    GraphQuads(names, ModelStatements(subjects, statements), DefaultGraph)
  }

  /** One step of importModel: importing subject k after the first k
      appends its statements' quads, even though the map has grown meanwhile. */
  lemma ModelStep(graphs: map<string, seq<Quad>>, names: map<string, string>, later: map<string, string>,
                  subjects: seq<Node>, k: nat, statements: seq<Triple>)
    requires k < |subjects|
    requires Extends(names, later) && SubjectsKnown(names, subjects[..k], statements)
    requires GraphKnown(later, StatementsAbout(statements, subjects[k]))
    ensures SubjectsKnown(later, subjects[..k + 1], statements)
    ensures ModelLabels(subjects[..k + 1], statements) == ModelLabels(subjects[..k], statements) + ResourceLabels(subjects[k], statements)
    ensures AppendQuads(AppendQuads(graphs, DefaultGraph, ModelQuads(names, subjects[..k], statements)),
                        DefaultGraph, GraphQuads(later, StatementsAbout(statements, subjects[k]), DefaultGraph))
            == AppendQuads(graphs, DefaultGraph, ModelQuads(later, subjects[..k + 1], statements))
  {
    var init, s := subjects[..k], subjects[k];
    assert subjects[..k + 1] == init + [s];
    var done := ModelStatements(init, statements);
    var about := StatementsAbout(statements, s);
    ModelStatementsKnown(names, init, statements);
    GraphQuadsStable(names, later, done, DefaultGraph);
    ModelStatementsSnoc(init, s, statements);
    SubjectsKnownSnoc(names, later, init, s, statements);
    GraphQuadsConcat(later, done, about, DefaultGraph);
    AppendQuadsTwice(graphs, DefaultGraph, GraphQuads(later, done, DefaultGraph), GraphQuads(later, about, DefaultGraph));
  }

  /** When `listSubjects` lists each subject of the model once, importing the
      model visits every statement exactly once. */
  lemma ModelCoversStatements(subjects: seq<Node>, statements: seq<Triple>)
    requires forall i, j :: 0 <= i < j < |subjects| ==> subjects[i] != subjects[j]
    requires forall t :: t in statements ==> t.subject in subjects
    ensures multiset(ModelStatements(subjects, statements)) == multiset(statements)
  {
    forall t
      ensures multiset(ModelStatements(subjects, statements))[t] == multiset(statements)[t]
    {
      ModelStatementsCount(subjects, statements, t);
    }
  }

  lemma {:induction false} ModelStatementsCount(subjects: seq<Node>, statements: seq<Triple>, t: Triple)
    requires forall i, j :: 0 <= i < j < |subjects| ==> subjects[i] != subjects[j]
    ensures multiset(ModelStatements(subjects, statements))[t] ==
      if t.subject in subjects then multiset(statements)[t] else 0
    decreases |subjects|
  {
    if subjects != [] {
      var init, last := subjects[..|subjects| - 1], subjects[|subjects| - 1];
      assert subjects == init + [last];
      ModelStatementsCount(init, statements, t);
      StatementsAboutCount(statements, last, t);
      assert last !in init by {
        assert forall i :: 0 <= i < |init| ==> init[i] == subjects[i];
      }
    }
  }

  // ---------------------------------------------------------------------
  // A dataset (importDatasetGraph)

  function NamedGraphLabels(ngs: seq<NamedGraph>): seq<string>
    decreases |ngs|
  {
    if ngs == [] then [] else NamedGraphLabels(ngs[..|ngs| - 1]) + GraphLabels(ngs[|ngs| - 1].graph)
  }

  /** The blank labels importing a dataset looks up: the default graph's first. */
  function DatasetLabels(ds: DatasetGraph): seq<string> {
    GraphLabels(ds.defaultGraph) + NamedGraphLabels(ds.namedGraphs)
  }

  predicate NamedGraphsKnown(names: map<string, string>, ngs: seq<NamedGraph>) {
    forall i :: 0 <= i < |ngs| ==> GraphKnown(names, ngs[i].graph)
  }

  predicate DatasetKnown(names: map<string, string>, ds: DatasetGraph) {
    GraphKnown(names, ds.defaultGraph) && NamedGraphsKnown(names, ds.namedGraphs)
  }

  /** The graphs after importing each named graph of ngs under its name, in order. */
  function AppendNamedGraphs(graphs: map<string, seq<Quad>>, names: map<string, string>, ngs: seq<NamedGraph>): map<string, seq<Quad>>
    requires NamedGraphsKnown(names, ngs)
    decreases |ngs|
  {
    if ngs == [] then graphs
    else
      var init, last := ngs[..|ngs| - 1], ngs[|ngs| - 1];
      assert NamedGraphsKnown(names, init) by {
        assert forall i :: 0 <= i < |init| ==> init[i] == ngs[i];
      }
      AppendQuads(AppendNamedGraphs(graphs, names, init), last.name, GraphQuads(names, last.graph, last.name))
  }

  /** The graphs after importing a dataset: its default graph under "@default",
      then its named graphs. */
  function DatasetGraphs(graphs: map<string, seq<Quad>>, names: map<string, string>, ds: DatasetGraph): map<string, seq<Quad>>
    requires DatasetKnown(names, ds)
  {
    AppendNamedGraphs(AppendQuads(graphs, DefaultGraph, GraphQuads(names, ds.defaultGraph, DefaultGraph)),
      names, ds.namedGraphs)
  }

  lemma NamedGraphsSnoc(ngs: seq<NamedGraph>, ng: NamedGraph, names: map<string, string>, graphs: map<string, seq<Quad>>)
    requires NamedGraphsKnown(names, ngs) && GraphKnown(names, ng.graph)
    ensures NamedGraphsKnown(names, ngs + [ng])
    ensures NamedGraphLabels(ngs + [ng]) == NamedGraphLabels(ngs) + GraphLabels(ng.graph)
    ensures AppendNamedGraphs(graphs, names, ngs + [ng]) ==
      AppendQuads(AppendNamedGraphs(graphs, names, ngs), ng.name, GraphQuads(names, ng.graph, ng.name))
  {
    assert (ngs + [ng])[..|ngs|] == ngs;
  }

  /** The named graphs' quads do not change as further names are recorded. */
  lemma {:induction false} AppendNamedGraphsStable(graphs: map<string, seq<Quad>>, names: map<string, string>, later: map<string, string>, ngs: seq<NamedGraph>)
    requires Extends(names, later) && NamedGraphsKnown(names, ngs)
    ensures NamedGraphsKnown(later, ngs)
    ensures AppendNamedGraphs(graphs, later, ngs) == AppendNamedGraphs(graphs, names, ngs)
    decreases |ngs|
  {
    if ngs != [] {
      var init, last := ngs[..|ngs| - 1], ngs[|ngs| - 1];
      assert NamedGraphsKnown(names, init) by {
        assert forall i :: 0 <= i < |init| ==> init[i] == ngs[i];
      }
      AppendNamedGraphsStable(graphs, names, later, init);
      GraphQuadsStable(names, later, last.graph, last.name);
    }
  }

  /** A graph name no named graph uses keeps its quads. */
  lemma {:induction false} AppendNamedGraphsOthers(graphs: map<string, seq<Quad>>, names: map<string, string>,
                                                   ngs: seq<NamedGraph>, h: string)
    requires NamedGraphsKnown(names, ngs)
    requires forall i :: 0 <= i < |ngs| ==> ngs[i].name != h
    ensures Lookup(AppendNamedGraphs(graphs, names, ngs), h) == Lookup(graphs, h)
    decreases |ngs|
  {
    if ngs != [] {
      var init := ngs[..|ngs| - 1];
      NamedGraphsInit(names, ngs);
      assert forall i :: 0 <= i < |init| ==> init[i] == ngs[i];
      AppendNamedGraphsOthers(graphs, names, init, h);
    }
  }

  /** With distinct graph names, each named graph's quads end up under its own name. */
  lemma {:induction false} AppendNamedGraphsAt(graphs: map<string, seq<Quad>>, names: map<string, string>,
                                               ngs: seq<NamedGraph>, i: nat)
    requires NamedGraphsKnown(names, ngs)
    requires DistinctNames(ngs)
    requires i < |ngs|
    ensures Lookup(AppendNamedGraphs(graphs, names, ngs), ngs[i].name) ==
      Lookup(graphs, ngs[i].name) + GraphQuads(names, ngs[i].graph, ngs[i].name)
    decreases |ngs|
  {
    var init, last := ngs[..|ngs| - 1], ngs[|ngs| - 1];
    NamedGraphsInit(names, ngs);
    DistinctNamesInit(ngs);
    var before := AppendNamedGraphs(graphs, names, init);
    assert AppendNamedGraphs(graphs, names, ngs) == AppendQuads(before, last.name, GraphQuads(names, last.graph, last.name));
    if i < |init| {
      AppendNamedGraphsAt(graphs, names, init, i);
      assert init[i] == ngs[i];
      assert Lookup(AppendNamedGraphs(graphs, names, ngs), ngs[i].name) == Lookup(before, ngs[i].name);
    } else {
      AppendNamedGraphsOthers(graphs, names, init, last.name);
      assert ngs[i] == last;
    }
  }

  /** No two named graphs share a name. */
  predicate DistinctNames(ngs: seq<NamedGraph>) {
    forall i, j :: 0 <= i < j < |ngs| ==> ngs[i].name != ngs[j].name
  }

  /** All but the last named graph are known when all are. */
  lemma NamedGraphsInit(names: map<string, string>, ngs: seq<NamedGraph>)
    requires NamedGraphsKnown(names, ngs) && ngs != []
    ensures NamedGraphsKnown(names, ngs[..|ngs| - 1])
  {
    var init := ngs[..|ngs| - 1];
    assert forall k :: 0 <= k < |init| ==> init[k] == ngs[k];
  }

  /** Dropping the last named graph keeps the names distinct, and the last
      name is none of the others. */
  lemma DistinctNamesInit(ngs: seq<NamedGraph>)
    requires DistinctNames(ngs) && ngs != []
    ensures DistinctNames(ngs[..|ngs| - 1])
    ensures forall k :: 0 <= k < |ngs| - 1 ==> ngs[k].name != ngs[|ngs| - 1].name
  {
    var init := ngs[..|ngs| - 1];
    assert forall k :: 0 <= k < |init| ==> init[k] == ngs[k];
  }

  /** The names of the named graphs that file at least one quad. */
  function FiledNames(ngs: seq<NamedGraph>): set<string>
    decreases |ngs|
  {
    if ngs == [] then {}
    else
      var last := ngs[|ngs| - 1];
      FiledNames(ngs[..|ngs| - 1]) + if last.graph == [] then {} else {last.name}
  }

  /** A name is filed exactly when some named graph with that name is non-empty. */
  lemma {:induction false} FiledNamesMembers(ngs: seq<NamedGraph>, h: string)
    ensures h in FiledNames(ngs) <==> exists i :: 0 <= i < |ngs| && ngs[i].name == h && ngs[i].graph != []
    decreases |ngs|
  {
    if ngs != [] {
      var init, last := ngs[..|ngs| - 1], ngs[|ngs| - 1];
      FiledNamesMembers(init, h);
      if exists i :: 0 <= i < |ngs| && ngs[i].name == h && ngs[i].graph != [] {
        var i :| 0 <= i < |ngs| && ngs[i].name == h && ngs[i].graph != [];
        if i < |init| {
          assert init[i] == ngs[i];
        }
      }
      if exists i :: 0 <= i < |init| && init[i].name == h && init[i].graph != [] {
        var i :| 0 <= i < |init| && init[i].name == h && init[i].graph != [];
        assert ngs[i] == init[i];
      }
    }
  }

  /** A graph gets an entry exactly when it had one or a named graph files
      quads under its name. */
  lemma {:induction false} AppendNamedGraphsKeys(graphs: map<string, seq<Quad>>, names: map<string, string>,
                                                 ngs: seq<NamedGraph>)
    requires NamedGraphsKnown(names, ngs)
    ensures AppendNamedGraphs(graphs, names, ngs).Keys == graphs.Keys + FiledNames(ngs)
    decreases |ngs|
  {
    if ngs != [] {
      var init, last := ngs[..|ngs| - 1], ngs[|ngs| - 1];
      NamedGraphsInit(names, ngs);
      AppendNamedGraphsKeys(graphs, names, init);
      GraphQuadsAt(names, last.graph, last.name);
    }
  }

  /** Importing a dataset into an empty one, with distinct IRIs as graph
      names: "@default" holds the default graph's quads, each name holds its
      graph's quads, and names whose graphs are empty get no entry. */
  lemma DatasetPartition(names: map<string, string>, ds: DatasetGraph)
    requires DatasetKnown(names, ds)
    requires DistinctNames(ds.namedGraphs)
    requires forall i :: 0 <= i < |ds.namedGraphs| ==> ds.namedGraphs[i].name != DefaultGraph
    ensures Lookup(DatasetGraphs(map[], names, ds), DefaultGraph) == GraphQuads(names, ds.defaultGraph, DefaultGraph)
    ensures forall i :: 0 <= i < |ds.namedGraphs| ==>
      Lookup(DatasetGraphs(map[], names, ds), ds.namedGraphs[i].name) ==
      GraphQuads(names, ds.namedGraphs[i].graph, ds.namedGraphs[i].name)
    ensures DatasetGraphs(map[], names, ds).Keys ==
      (if ds.defaultGraph == [] then {} else {DefaultGraph}) + FiledNames(ds.namedGraphs)
  {
    var ngs := ds.namedGraphs;
    var defaultQuads := GraphQuads(names, ds.defaultGraph, DefaultGraph);
    GraphQuadsAt(names, ds.defaultGraph, DefaultGraph);
    var start := AppendQuads(map[], DefaultGraph, defaultQuads);
    assert Lookup(start, DefaultGraph) == defaultQuads;
    assert forall h :: h != DefaultGraph ==> Lookup(start, h) == [];
    assert start.Keys == if ds.defaultGraph == [] then {} else {DefaultGraph};
    var r := AppendNamedGraphs(start, names, ngs);
    assert r == DatasetGraphs(map[], names, ds);
    AppendNamedGraphsOthers(start, names, ngs, DefaultGraph);
    forall i | 0 <= i < |ngs|
      ensures Lookup(r, ngs[i].name) == GraphQuads(names, ngs[i].graph, ngs[i].name)
    {
      AppendNamedGraphsAt(start, names, ngs, i);
      var q := GraphQuads(names, ngs[i].graph, ngs[i].name);
      assert Lookup(start, ngs[i].name) == [];
      assert [] + q == q;
    }
    AppendNamedGraphsKeys(start, names, ngs);
  }

  // ---------------------------------------------------------------------
  // parse

  /** The blank labels importing the input looks up; nothing for null or an
      unsupported object. */
  function InputLabels(input: Input): seq<string> {
    match input
    case DatasetGraphInput(ds) => DatasetLabels(ds)
    case ResourceInput(s, m) => ResourceLabels(s, m.statements)
    case ModelInput(m) => ModelLabels(m.subjects, m.statements)
    case _ => []
  }

  predicate InputKnown(names: map<string, string>, input: Input) {
    match input
    case DatasetGraphInput(ds) => DatasetKnown(names, ds)
    case ResourceInput(s, m) => GraphKnown(names, StatementsAbout(m.statements, s))
    case ModelInput(m) => SubjectsKnown(names, m.subjects, m.statements)
    case _ => true
  }

  /** The graphs of the dataset parse returns, starting from an empty one. */
  function InputGraphs(names: map<string, string>, input: Input): map<string, seq<Quad>>
    requires InputKnown(names, input)
  {
    match input
    case DatasetGraphInput(ds) => DatasetGraphs(map[], names, ds)
    case ResourceInput(s, m) => AppendQuads(map[], DefaultGraph, GraphQuads(names, StatementsAbout(m.statements, s), DefaultGraph))
    case ModelInput(m) => AppendQuads(map[], DefaultGraph, ModelQuads(names, m.subjects, m.statements))
    case _ => map[]
  }

  /** Only a model's prefixes are copied. */
  function InputNamespaces(input: Input): map<string, string> {
    if input.ModelInput? then input.model.nsPrefixes else map[]
  }
}
