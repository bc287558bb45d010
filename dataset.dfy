/**
 * The output side: jsonld-java's `RDFDataset`, a map from graph name to the
 * quads filed under it, plus a namespace prefix map. Only the three
 * operations JenaRDFParser calls are modelled: `addTriple`, `addQuad` and
 * `setNamespace`.
 */
module Dataset {
  import opened Rdf

  /** The reserved name of the default graph. */
  const DefaultGraph: string := "@default"

  /** The object of a quad: the identity of a node, or a literal whose
      language tag is absent rather than empty. */
  datatype QuadObject =
    | NodeRef(id: string)
    | LiteralValue(value: string, datatypeUri: Option<string>, language: Option<string>)

  datatype Quad = Quad(subject: string, predicateUri: string, obj: QuadObject, graph: string)

  /** The quads filed under graph g; none when g has no entry. */
  function Lookup(graphs: map<string, seq<Quad>>, g: string): seq<Quad> {
    if g in graphs then graphs[g] else []
  }

  /** The graphs after appending qs, in order, to graph g. A graph gets an
      entry only once a quad is filed under it. */
  function AppendQuads(graphs: map<string, seq<Quad>>, g: string, qs: seq<Quad>): (r: map<string, seq<Quad>>)
    ensures Lookup(r, g) == Lookup(graphs, g) + qs
    ensures forall h :: h != g ==> Lookup(r, h) == Lookup(graphs, h)
    ensures r.Keys == if qs == [] then graphs.Keys else graphs.Keys + {g}
  {
    if qs == [] then graphs else graphs[g := Lookup(graphs, g) + qs]
  }

  /** Appending in two steps is appending the concatenation. */
  lemma AppendQuadsTwice(graphs: map<string, seq<Quad>>, g: string, a: seq<Quad>, b: seq<Quad>)
    ensures AppendQuads(AppendQuads(graphs, g, a), g, b) == AppendQuads(graphs, g, a + b)
  {
    if a == [] {
      assert a + b == b;
    } else if b == [] {
      assert a + b == a;
    } else {
      assert Lookup(AppendQuads(graphs, g, a), g) + b == Lookup(graphs, g) + (a + b);
    }
  }

  class RdfDataset {
    var graphs: map<string, seq<Quad>>
    var namespaces: map<string, string>

    /** A fresh dataset holds no quads and no namespaces. */
    constructor()
      ensures graphs == map[] && namespaces == map[]
    {
      graphs := map[];
      namespaces := map[];
    }

    method AddQuad(subject: string, predicateUri: string, obj: QuadObject, graph: string)
      modifies this
      ensures graphs == AppendQuads(old(graphs), graph, [Quad(subject, predicateUri, obj, graph)])
      ensures namespaces == old(namespaces)
    {
      graphs := graphs[graph := Lookup(graphs, graph) + [Quad(subject, predicateUri, obj, graph)]];
    }

    /** A triple is filed under the default graph. */
    method AddTriple(subject: string, predicateUri: string, obj: QuadObject)
      modifies this
      ensures graphs == AppendQuads(old(graphs), DefaultGraph, [Quad(subject, predicateUri, obj, DefaultGraph)])
      ensures namespaces == old(namespaces)
    {
      AddQuad(subject, predicateUri, obj, DefaultGraph);
    }

    /** A prefix already bound is rebound. */
    method SetNamespace(prefix: string, iri: string)
      modifies this
      ensures namespaces == old(namespaces)[prefix := iri]
      ensures graphs == old(graphs)
    {
      namespaces := namespaces[prefix := iri];
    }
  }
}
