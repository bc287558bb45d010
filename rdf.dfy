/**
 * The Jena side of the conversion: the shapes of the graph structures that
 * JenaRDFParser reads. Jena's iterators (listSubjects, listStatements, find,
 * listGraphNodes) are modelled as finite sequences whose order is given.
 */
module Rdf {

  datatype Option<+T> = None | Some(value: T)

  datatype Result<+R, +E> = Success(value: R) | Failure(error: E)

  /** A Jena graph node that can stand as a subject: an IRI or a blank node. */
  datatype Node = Iri(uri: string) | Blank(blankLabel: string)

  /** The object of a statement: another node, or a literal. Jena reports the
      language tag of a literal without one as the empty string, and the
      datatype IRI of a plain literal as null. */
  datatype Term =
    | Resource(node: Node)
    | Literal(lexicalForm: string, datatypeUri: Option<string>, language: string)

  /** A statement (Jena `Statement` or graph-level `Triple`): the predicate
      is a property, named by its IRI. */
  datatype Triple = Triple(subject: Node, predicateUri: string, obj: Term)

  /** A Jena `Model`: its namespace prefix map, the subjects that
      `listSubjects` enumerates, and its statements in enumeration order. */
  datatype Model = Model(nsPrefixes: map<string, string>, subjects: seq<Node>, statements: seq<Triple>)

  /** One named graph of a dataset: the IRI of its graph node and its triples. */
  datatype NamedGraph = NamedGraph(name: string, graph: seq<Triple>)

  /** A Jena `DatasetGraph`: the default graph and the named graphs in the
      order `listGraphNodes` gives them. */
  datatype DatasetGraph = DatasetGraph(defaultGraph: seq<Triple>, namedGraphs: seq<NamedGraph>)

  /** The object handed to `parse`: null, one of the three supported shapes,
      or anything else. A `Resource` carries the model it belongs to. */
  datatype Input =
    | NoInput
    | DatasetGraphInput(dataset: DatasetGraph)
    | ResourceInput(subject: Node, model: Model)
    | ModelInput(model: Model)
    | Unsupported

  /** The only error kind the parser raises. */
  datatype JsonLdError = InvalidInput
}
