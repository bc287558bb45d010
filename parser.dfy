/**
 * JenaRDFParser: the name generator `_ng`, the blank-node map `_bns`, and the
 * import methods that walk a Jena structure and fill an RDFDataset.
 */
module Parser {
  import opened Rdf
  import opened BlankNames
  import opened Dataset
  import opened Conversion

  /** Extending a prefix of s by one element. */
  lemma TakeNext<T>(s: seq<T>, k: nat)
    requires k < |s|
    ensures s[..k + 1] == s[..k] + [s[k]]
  {
  }

  /** The anonymous iterator held in `_ng`: an endless source of names. */
  class NameGenerator {
    /** The `AtomicInteger` behind it, a Java `int`. */
    var i: int

    constructor()
      ensures i == 0
    {
      i := 0;
    }

    /** `next()`: increment first, then name the new value. */
    method Next() returns (name: string)
      requires IsJavaInt(i)
      modifies this
      ensures i == JavaIncrement(old(i))
      ensures name == NamePrefix + JavaIntToString(i)
    {
      i := JavaIncrement(i);
      name := NamePrefix + JavaIntToString(i);
    }
  }

  class JenaRdfParser {
    const ng: NameGenerator
    /** `_bns`: native blank-node label to issued name. */
    var bns: map<string, string>
    /** The labels of `_bns` in insertion order, as its LinkedHashMap keeps them. */
    ghost var labels: seq<string>

    /** The map holds exactly the recorded labels, one entry each, the k-th
        label with the k-th issued name, and the counter has been advanced
        once per entry. */
    ghost predicate Valid()
      reads this, ng
    {
      && Distinct(labels)
      && bns == NameMap(labels)
      && ng.i == Counter(|labels|)
    }

    constructor()
      ensures Valid() && fresh(ng)
      ensures labels == [] && bns == map[] && ng.i == 0
    {
      ng := new NameGenerator();
      bns := map[];
      labels := [];
    }

    /** getNameForBlankNode: a label seen before keeps its name and the
        counter stays put; a new label takes the next name. */
    method GetNameForBlankNode(blankLabel: string) returns (name: string)
      requires Valid()
      modifies this, ng
      ensures Valid()
      ensures labels == Record(old(labels), blankLabel)
      ensures name == NameOf(labels, blankLabel)
      ensures Extends(old(bns), bns) && blankLabel in bns && name == bns[blankLabel]
      ensures blankLabel in old(bns) ==> bns == old(bns) && ng.i == old(ng.i) && name == old(bns)[blankLabel]
      ensures blankLabel !in old(bns) ==>
        bns == old(bns)[blankLabel := BlankName(|labels|)] && ng.i == JavaIncrement(old(ng.i))
    {
      if blankLabel !in bns {
        RecordNew(labels, blankLabel);
        var next := ng.Next();
        assert ng.i == Counter(|labels| + 1);
        bns := bns[blankLabel := next];
        labels := labels + [blankLabel];
        name := next;
      } else {
        RecordKnown(labels, blankLabel);
        name := bns[blankLabel];
      }
    }

    /** getID: an IRI verbatim, leaving the map alone; a blank node the name
        of its label. */
    method GetId(n: Node) returns (id: string)
      requires Valid()
      modifies this, ng
      ensures Valid()
      ensures labels == RecordAll(old(labels), NodeLabels(n))
      ensures Extends(old(bns), bns)
      ensures NodeKnown(bns, n) && id == IdOf(bns, n)
      ensures n.Iri? ==> bns == old(bns) && ng.i == old(ng.i)
    {
      if n.Blank? {
        id := GetNameForBlankNode(n.blankLabel);
        assert [n.blankLabel][..0] == [];
      } else {
        id := n.uri;
      }
    }

    /** addTriple or addQuad for one statement whose subject identity is
        already known, with the empty language tag made absent. */
    method AddStatement(result: RdfDataset, subj: string, t: Triple, graphName: string, asTriple: bool)
      requires Valid()
      requires NodeKnown(bns, t.subject) && subj == IdOf(bns, t.subject)
      requires asTriple ==> graphName == DefaultGraph
      modifies this, ng, result
      ensures Valid()
      ensures labels == RecordAll(old(labels), TermLabels(t.obj))
      ensures Extends(old(bns), bns)
      ensures TripleKnown(bns, t)
      ensures result.graphs == AppendQuads(old(result.graphs), graphName, [ToQuad(bns, t, graphName)])
      ensures result.namespaces == old(result.namespaces)
    {
      var obj: QuadObject;
      if t.obj.Literal? {
        var language: Option<string> := Some(t.obj.language);
        if t.obj.language == "" {
          language := None;
        }
        obj := LiteralValue(t.obj.lexicalForm, t.obj.datatypeUri, language);
        assert RecordAll(labels, []) == labels;
      } else {
        ghost var before := bns;
        var res := GetId(t.obj.node);
        IdStable(before, bns, t.subject);
        obj := NodeRef(res);
      }
      if asTriple {
        result.AddTriple(subj, t.predicateUri, obj);
      } else {
        result.AddQuad(subj, t.predicateUri, obj, graphName);
      }
    }

    /** importResource: resolve the subject once, then add one default-graph
        triple per statement about it, in order. */
    method ImportResource(result: RdfDataset, subject: Node, model: Model)
      requires Valid()
      modifies this, ng, result
      ensures Valid()
      ensures labels == RecordAll(old(labels), ResourceLabels(subject, model.statements))
      ensures Extends(old(bns), bns)
      ensures GraphKnown(bns, StatementsAbout(model.statements, subject))
      ensures result.graphs == AppendQuads(old(result.graphs), DefaultGraph,
        GraphQuads(bns, StatementsAbout(model.statements, subject), DefaultGraph))
      ensures result.namespaces == old(result.namespaces)
    {
      var subj := GetId(subject);
      ghost var afterSubject := labels;
      ghost var namesAfterSubject := bns;
      var statements := StatementsAbout(model.statements, subject);
      var k := 0;
      while k < |statements|
        invariant 0 <= k <= |statements|
        invariant Valid()
        invariant labels == RecordAll(afterSubject, ObjectLabels(statements[..k]))
        invariant Extends(namesAfterSubject, bns)
        invariant NodeKnown(bns, subject) && subj == IdOf(bns, subject)
        invariant GraphKnown(bns, statements[..k])
        invariant result.graphs == AppendQuads(old(result.graphs), DefaultGraph,
          GraphQuads(bns, statements[..k], DefaultGraph))
        invariant result.namespaces == old(result.namespaces)
      {
        var t := statements[k];
        ghost var before := bns;
        AddStatement(result, subj, t, DefaultGraph, true);
        IdStable(before, bns, subject);
        GraphQuadsStable(before, bns, statements[..k], DefaultGraph);
        TakeNext(statements, k);
        GraphQuadsSnoc(bns, statements[..k], t, DefaultGraph);
        AppendQuadsTwice(old(result.graphs), DefaultGraph,
          GraphQuads(bns, statements[..k], DefaultGraph), [ToQuad(bns, t, DefaultGraph)]);
        ObjectLabelsSnoc(statements[..k], t);
        RecordAllAppend(afterSubject, ObjectLabels(statements[..k]), TermLabels(t.obj));
        k := k + 1;
      }
      assert statements[..k] == statements;
      RecordAllAppend(old(labels), NodeLabels(subject), ObjectLabels(statements));
    }

    /** importGraph: one quad per triple of the graph, in order, all filed
        under graphName. */
    method ImportGraph(result: RdfDataset, graph: seq<Triple>, graphName: string)
      requires Valid()
      modifies this, ng, result
      ensures Valid()
      ensures labels == RecordAll(old(labels), GraphLabels(graph))
      ensures Extends(old(bns), bns)
      ensures GraphKnown(bns, graph)
      ensures result.graphs == AppendQuads(old(result.graphs), graphName, GraphQuads(bns, graph, graphName))
      ensures result.namespaces == old(result.namespaces)
    {
      var k := 0;
      while k < |graph|
        invariant 0 <= k <= |graph|
        invariant Valid()
        invariant labels == RecordAll(old(labels), GraphLabels(graph[..k]))
        invariant Extends(old(bns), bns)
        invariant GraphKnown(bns, graph[..k])
        invariant result.graphs == AppendQuads(old(result.graphs), graphName,
          GraphQuads(bns, graph[..k], graphName))
        invariant result.namespaces == old(result.namespaces)
      {
        var t := graph[k];
        ghost var before := bns;
        ghost var labelsBefore := labels;
        var subj := GetId(t.subject);
        AddStatement(result, subj, t, graphName, false);
        GraphQuadsStable(before, bns, graph[..k], graphName);
        TakeNext(graph, k);
        GraphQuadsSnoc(bns, graph[..k], t, graphName);
        AppendQuadsTwice(old(result.graphs), graphName,
          GraphQuads(bns, graph[..k], graphName), [ToQuad(bns, t, graphName)]);
        GraphLabelsSnoc(graph[..k], t);
        RecordAllAppend(labelsBefore, NodeLabels(t.subject), TermLabels(t.obj));
        RecordAllAppend(old(labels), GraphLabels(graph[..k]), TripleLabels(t));
        k := k + 1;
      }
      assert graph[..k] == graph;
    }

    /** importDatasetGraph: the default graph under "@default" first, then
        each named graph under its IRI, in listing order. */
    method ImportDatasetGraph(result: RdfDataset, input: DatasetGraph)
      requires Valid()
      modifies this, ng, result
      ensures Valid()
      ensures labels == RecordAll(old(labels), DatasetLabels(input))
      ensures Extends(old(bns), bns)
      ensures DatasetKnown(bns, input)
      ensures result.graphs == DatasetGraphs(old(result.graphs), bns, input)
      ensures result.namespaces == old(result.namespaces)
    {
      ImportGraph(result, input.defaultGraph, DefaultGraph);
      ghost var afterDefault := labels;
      ghost var namesAfterDefault := bns;
      ghost var defaultQuads := GraphQuads(bns, input.defaultGraph, DefaultGraph);
      ghost var start := result.graphs;
      var graphNodes := input.namedGraphs;
      var k := 0;
      while k < |graphNodes|
        invariant 0 <= k <= |graphNodes|
        invariant Valid()
        invariant labels == RecordAll(afterDefault, NamedGraphLabels(graphNodes[..k]))
        invariant Extends(old(bns), namesAfterDefault) && Extends(namesAfterDefault, bns)
        invariant GraphKnown(bns, input.defaultGraph)
        invariant GraphQuads(bns, input.defaultGraph, DefaultGraph) == defaultQuads
        invariant NamedGraphsKnown(bns, graphNodes[..k])
        invariant result.graphs == AppendNamedGraphs(start, bns, graphNodes[..k])
        invariant result.namespaces == old(result.namespaces)
      {
        var n := graphNodes[k];
        ghost var before := bns;
        ImportGraph(result, n.graph, n.name);
        GraphQuadsStable(before, bns, input.defaultGraph, DefaultGraph);
        AppendNamedGraphsStable(start, before, bns, graphNodes[..k]);
        TakeNext(graphNodes, k);
        NamedGraphsSnoc(graphNodes[..k], n, bns, start);
        RecordAllAppend(afterDefault, NamedGraphLabels(graphNodes[..k]), GraphLabels(n.graph));
        k := k + 1;
      }
      assert graphNodes[..k] == graphNodes;
      RecordAllAppend(old(labels), GraphLabels(input.defaultGraph), NamedGraphLabels(graphNodes));
    }

    /** The first half of importModel: every prefix of the model's prefix
        map is bound in the dataset, in whatever order the map yields them. */
    method CopyNamespaces(result: RdfDataset, nsPrefixMap: map<string, string>)
      modifies result
      ensures result.namespaces == old(result.namespaces) + nsPrefixMap
      ensures result.graphs == old(result.graphs)
    {
      var remaining := nsPrefixMap.Keys;
      while remaining != {}
        invariant remaining <= nsPrefixMap.Keys
        invariant result.namespaces ==
          old(result.namespaces) + map p | p in nsPrefixMap.Keys - remaining :: nsPrefixMap[p]
        invariant result.graphs == old(result.graphs)
        decreases remaining
      {
        var prefix :| prefix in remaining;
        result.SetNamespace(prefix, nsPrefixMap[prefix]);
        remaining := remaining - {prefix};
      }
      assert (map p | p in nsPrefixMap.Keys - remaining :: nsPrefixMap[p]) == nsPrefixMap;
    }

    /** importModel: copy every namespace prefix, then import each subject
        `listSubjects` gives, in order. */
    method ImportModel(result: RdfDataset, model: Model)
      requires Valid()
      modifies this, ng, result
      ensures Valid()
      ensures result.namespaces == old(result.namespaces) + model.nsPrefixes
      ensures labels == RecordAll(old(labels), ModelLabels(model.subjects, model.statements))
      ensures Extends(old(bns), bns)
      ensures SubjectsKnown(bns, model.subjects, model.statements)
      ensures result.graphs == AppendQuads(old(result.graphs), DefaultGraph,
        ModelQuads(bns, model.subjects, model.statements))
    {
      CopyNamespaces(result, model.nsPrefixes);

      var subjects := model.subjects;
      var k := 0;
      while k < |subjects|
        invariant 0 <= k <= |subjects|
        invariant Valid()
        invariant labels == RecordAll(old(labels), ModelLabels(subjects[..k], model.statements))
        invariant Extends(old(bns), bns)
        invariant SubjectsKnown(bns, subjects[..k], model.statements)
        invariant result.graphs == AppendQuads(old(result.graphs), DefaultGraph,
          ModelQuads(bns, subjects[..k], model.statements))
        invariant result.namespaces == old(result.namespaces) + model.nsPrefixes
      {
        var subject := subjects[k];
        ghost var before := bns;
        ImportResource(result, subject, model);
        ExtendsTransitive(old(bns), before, bns);
        ModelStep(old(result.graphs), before, bns, subjects, k, model.statements);
        RecordAllAppend(old(labels), ModelLabels(subjects[..k], model.statements),
          ResourceLabels(subject, model.statements));
        k := k + 1;
      }
      assert subjects[..k] == subjects;
    }

    /** parse: null gives a fresh empty dataset; a dataset, a resource or a
        model is imported into a fresh dataset; anything else fails with
        INVALID_INPUT. The blank-node map is not reset between calls. */
    method Parse(input: Input) returns (r: Result<RdfDataset, JsonLdError>)
      requires Valid()
      modifies this, ng
      ensures Valid()
      ensures r.Failure? <==> input.Unsupported?
      ensures r.Failure? ==> r.error == InvalidInput && labels == old(labels) && bns == old(bns) && ng.i == old(ng.i)
      ensures r.Success? ==>
        && fresh(r.value)
        && labels == RecordAll(old(labels), InputLabels(input))
        && Extends(old(bns), bns)
        && InputKnown(bns, input)
        && r.value.graphs == InputGraphs(bns, input)
        && r.value.namespaces == InputNamespaces(input)
    {
      var result := new RdfDataset();
      if input.NoInput? {
        r := Success(result);
      } else if input.DatasetGraphInput? {
        ImportDatasetGraph(result, input.dataset);
        r := Success(result);
      } else if input.ResourceInput? {
        ImportResource(result, input.subject, input.model);
        r := Success(result);
      } else if input.ModelInput? {
        ImportModel(result, input.model);
        assert map[] + input.model.nsPrefixes == input.model.nsPrefixes;
        r := Success(result);
      } else {
        r := Failure(InvalidInput);
      }
    }
  }
}
