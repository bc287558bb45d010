# A verified model of jsonld-java's JenaRDFParser

jsonld-java's Jena integration turns a Jena RDF structure into an
`RDFDataset`. An `RDFDataset` maps each graph name to its list of quads
and also holds a map of namespace prefixes. The parser takes one of three
inputs:

- a `DatasetGraph`: a default graph plus named graphs;
- a `Model`: its prefixes and all its subjects;
- a single `Resource`: the statements about one subject.

Each statement becomes one quad. An IRI node keeps its IRI. A blank node is
renamed to a local identifier `_:t1`, `_:t2`, and so on. The names come
from a counter held in the parser's name generator `_ng`. The map `_bns`
remembers each blank label, so a label seen again gets the same name.
`parse` never resets that map, so names persist from one call to the next.

The project has five modules:

- `Rdf` (rdf.dfy): the Jena-side values (nodes, literals, statements, models, datasets), and the object handed to `parse`.
- `BlankNames` (names.dfy): the names the generator issues, including its 32-bit Java `int` counter, which wraps. Also the label map, described by the labels in the order they were first seen.
- `Dataset` (dataset.dfy): the `RDFDataset` class, with only the three operations the parser calls.
- `Conversion` (conversion.dfy): pure functions giving the quads and graphs each import produces from its input and the blank-node map. Lemmas about them cover order, counts and partition by graph.
- `Parser` (parser.dfy): the classes `NameGenerator` (`_ng`) and `JenaRdfParser`. Their methods carry the source's loops and are proved against the `Conversion` functions.

`JenaRdfParser.Valid()` is the invariant every method keeps. It relates
`bns` to a ghost list `labels`, which records insertion order the way the
LinkedHashMap does:

- the labels are distinct;
- `bns` maps the k-th label to the k-th issued name;
- the generator's counter holds the value it reaches after k increments from 0, where k is the number of labels.

The import methods state the dataset they produce in terms of the *final*
map. This is sound because the map only grows and an entry never changes, as
`IdStable` and `GraphQuadsStable` prove.

## Model

| member | source | states |
|---|---|---|
| BlankNames.WrapIncrement | integration/jena/src/main/java/com/github/jsonldjava/jena/JenaRDFParser.java:29-38 | incrementing the wrapped counter equals wrapping the incremented count, so the Java `int` steps from 2^31-1 to -2^31 |
| BlankNames.CounterWraps | integration/jena/src/main/java/com/github/jsonldjava/jena/JenaRDFParser.java:29-38 | after k calls of `next()` the counter holds k reduced into the Java `int` range |
| BlankNames.DecimalRoundTrip | integration/jena/src/main/java/com/github/jsonldjava/jena/JenaRDFParser.java:38 | the decimal digits printed for a natural number read back as that number |
| BlankNames.JavaIntRoundTrip | integration/jena/src/main/java/com/github/jsonldjava/jena/JenaRDFParser.java:38 | the string concatenated after "_:t" determines the counter value it was printed from, negative values included |
| BlankNames.FirstBlankName | integration/jena/src/main/java/com/github/jsonldjava/jena/JenaRDFParser.java:29-38 | the counter starts at 0 and is incremented before use, so the first name issued is "_:t1" |
| BlankNames.BlankNameInjective | integration/jena/src/main/java/com/github/jsonldjava/jena/JenaRDFParser.java:37-39 | any two distinct calls among the first 2^32 calls of `next()` return distinct names |
| BlankNames.BlankNameRepeats | integration/jena/src/main/java/com/github/jsonldjava/jena/JenaRDFParser.java:29-38 | the (2^32+1)-st name equals the first, because the counter is a 32-bit `int` |
| BlankNames.RecordAllExtends | integration/jena/src/main/java/com/github/jsonldjava/jena/JenaRDFParser.java:48-53 | looking up labels only appends to the recorded labels, keeps them distinct, and afterwards holds exactly the old labels and the looked-up ones |
| BlankNames.NameStable | integration/jena/src/main/java/com/github/jsonldjava/jena/JenaRDFParser.java:48-53 | a recorded label's name does not change, however many labels are recorded after it |
| BlankNames.NamesInjective | integration/jena/src/main/java/com/github/jsonldjava/jena/JenaRDFParser.java:49-50 | while at most 2^32 labels are recorded, two distinct labels have different names |
| BlankNames.NameMapContents | integration/jena/src/main/java/com/github/jsonldjava/jena/JenaRDFParser.java:46-53 | the map has one entry per recorded label and no others, and each entry is that label's name; with the counter invariant, k labels give k entries, and the counter holds `Counter(k)`: k while k is at most 2^31-1, wrapped into the Java `int` range after that |
| BlankNames.RecordKnown | integration/jena/src/main/java/com/github/jsonldjava/jena/JenaRDFParser.java:49-52 | looking up a label the map already holds records nothing new, and the map's entry is the label's name |
| BlankNames.RecordNew | integration/jena/src/main/java/com/github/jsonldjava/jena/JenaRDFParser.java:49-52 | looking up a new label appends it, maps it to the next issued name, and leaves every older entry unchanged |
| BlankNames.NameMapGrows | integration/jena/src/main/java/com/github/jsonldjava/jena/JenaRDFParser.java:48-53 | recording more labels only adds entries, so every existing entry survives unchanged |
| BlankNames.NameMapInjective | integration/jena/src/main/java/com/github/jsonldjava/jena/JenaRDFParser.java:46-53 | while at most 2^32 labels are recorded, the map is injective and every name starts with "_:" |
| Parser.NameGenerator.constructor | integration/jena/src/main/java/com/github/jsonldjava/jena/JenaRDFParser.java:28-29 | the generator's counter starts at 0 |
| Parser.NameGenerator.Next | integration/jena/src/main/java/com/github/jsonldjava/jena/JenaRDFParser.java:37-39 | `next()` increments the counter (wrapping as a Java `int`) and then returns "_:t" followed by the new value |
| Parser.JenaRdfParser.constructor | integration/jena/src/main/java/com/github/jsonldjava/jena/JenaRDFParser.java:28-46 | a new parser has an empty map, a new generator at 0, and satisfies the invariant |
| Parser.JenaRdfParser.GetNameForBlankNode | integration/jena/src/main/java/com/github/jsonldjava/jena/JenaRDFParser.java:48-53 | a known label returns its stored name with both map and counter unchanged; a new label is mapped to the next issued name, the counter steps once, and old entries are kept; the invariant is preserved |
| Parser.JenaRdfParser.GetId | integration/jena/src/main/java/com/github/jsonldjava/jena/JenaRDFParser.java:60-78 | an IRI node's identity is its IRI verbatim, with map and counter untouched; a blank node's identity is the name the map holds for its label; the map only grows |
| Conversion.IdStable | integration/jena/src/main/java/com/github/jsonldjava/jena/JenaRDFParser.java:60-78 | a node's identity is unchanged by later growth of the map |
| Conversion.IdInjective | integration/jena/src/main/java/com/github/jsonldjava/jena/JenaRDFParser.java:60-68 | with an injective map of "_:" names, distinct nodes have distinct identities, as long as no IRI starts with "_:" |
| Conversion.IriBlankCollision | integration/jena/src/main/java/com/github/jsonldjava/jena/JenaRDFParser.java:60-68 | an IRI node whose IRI is "_:t1" and a blank node whose label the map names "_:t1" get the same identity, so the condition on Conversion.IdInjective is needed |
| Conversion.NormalizeLanguage | integration/jena/src/main/java/com/github/jsonldjava/jena/JenaRDFParser.java:106-115 | an empty language tag becomes absent, a non-empty tag is kept, and the result is never the empty tag |
| Conversion.ToQuadInjective | integration/jena/src/main/java/com/github/jsonldjava/jena/JenaRDFParser.java:125-143 | given an injective map of "_:" names and no IRI starting with "_:", the quad a statement becomes determines the statement: subject, predicate IRI, lexical form, datatype, language and object node |
| Parser.JenaRdfParser.AddStatement | integration/jena/src/main/java/com/github/jsonldjava/jena/JenaRDFParser.java:106-121 | one statement adds exactly one quad under the graph name; a literal keeps its lexical form and datatype and has its language normalised; a node object is resolved through getID |
| Conversion.GraphQuadsAt | integration/jena/src/main/java/com/github/jsonldjava/jena/JenaRDFParser.java:125-143 | importing a graph gives exactly one quad per triple, the i-th quad made from the i-th triple, all filed under the given graph name |
| Conversion.GraphQuadsStable | integration/jena/src/main/java/com/github/jsonldjava/jena/JenaRDFParser.java:125-143 | a graph's quads do not change as later imports add names to the map |
| Parser.JenaRdfParser.ImportGraph | integration/jena/src/main/java/com/github/jsonldjava/jena/JenaRDFParser.java:125-143 | the graph's quads are appended, in order, to the given graph name and to no other graph; the labels are looked up in triple order; namespaces are unchanged |
| Conversion.StatementsAboutCount | integration/jena/src/main/java/com/github/jsonldjava/jena/JenaRDFParser.java:99-100 | listing the statements about a subject keeps every statement with that subject as often as it occurs, and no other statement |
| Parser.JenaRdfParser.ImportResource | integration/jena/src/main/java/com/github/jsonldjava/jena/JenaRDFParser.java:97-123 | the subject is resolved once, then one default-graph quad per statement about it is appended in statement order; namespaces are unchanged |
| Parser.JenaRdfParser.CopyNamespaces | integration/jena/src/main/java/com/github/jsonldjava/jena/JenaRDFParser.java:83-86 | every prefix of the model's prefix map is bound in the dataset, overriding any old binding for that prefix; quads are unchanged |
| Conversion.ModelStatementsCount | integration/jena/src/main/java/com/github/jsonldjava/jena/JenaRDFParser.java:88-94 | when no subject is listed twice, importing the subjects in turn visits each statement about a listed subject exactly as often as it occurs in the model, and no other statement |
| Conversion.ModelCoversStatements | integration/jena/src/main/java/com/github/jsonldjava/jena/JenaRDFParser.java:88-94 | when every statement's subject is listed once, importing a model visits exactly the model's statements, as a multiset |
| Parser.JenaRdfParser.ImportModel | integration/jena/src/main/java/com/github/jsonldjava/jena/JenaRDFParser.java:80-95 | namespaces are copied first; then each listed subject is imported in order, appending its statements' quads to the default graph |
| Conversion.AppendNamedGraphsOthers | integration/jena/src/main/java/com/github/jsonldjava/jena/JenaRDFParser.java:149-156 | a graph name that no named graph uses keeps its quads |
| Conversion.AppendNamedGraphsAt | integration/jena/src/main/java/com/github/jsonldjava/jena/JenaRDFParser.java:149-156 | when graph names are distinct, each named graph's quads are appended under its own IRI |
| Conversion.FiledNamesMembers | integration/jena/src/main/java/com/github/jsonldjava/jena/JenaRDFParser.java:149-156 | a name gets a graph entry exactly when some named graph with that name has at least one triple |
| Conversion.AppendNamedGraphsKeys | integration/jena/src/main/java/com/github/jsonldjava/jena/JenaRDFParser.java:149-156 | importing the named graphs adds exactly the names of the non-empty ones as graph entries |
| Conversion.DatasetPartition | integration/jena/src/main/java/com/github/jsonldjava/jena/JenaRDFParser.java:145-157 | importing a dataset into an empty result: "@default" holds the default graph's quads, each named graph's quads are under its IRI, and no other graph appears |
| Parser.JenaRdfParser.ImportDatasetGraph | integration/jena/src/main/java/com/github/jsonldjava/jena/JenaRDFParser.java:145-157 | the default graph is imported under "@default" first, then each named graph under its IRI in listing order; namespaces are unchanged |
| Parser.JenaRdfParser.Parse | integration/jena/src/main/java/com/github/jsonldjava/jena/JenaRDFParser.java:160-178 | the result is a failure with INVALID_INPUT exactly for an unsupported input, and then the parser is unchanged; otherwise a fresh dataset is returned: empty for null, or the routed importer's quads, with a model's prefixes; the map persists and only grows across calls |
| Dataset.AppendQuads | integration/jena/src/main/java/com/github/jsonldjava/jena/JenaRDFParser.java:138-140 | adding quads to one graph appends them to that graph's list, leaves other graphs alone, and creates an entry only once a quad is filed |
| Dataset.RdfDataset.constructor | integration/jena/src/main/java/com/github/jsonldjava/jena/JenaRDFParser.java:161 | a new dataset has no quads and no namespaces |
| Dataset.RdfDataset.AddQuad | integration/jena/src/main/java/com/github/jsonldjava/jena/JenaRDFParser.java:138-140 | `addQuad` appends one quad under its graph |
| Dataset.RdfDataset.AddTriple | integration/jena/src/main/java/com/github/jsonldjava/jena/JenaRDFParser.java:115-120 | `addTriple` appends one quad under "@default" |
| Dataset.RdfDataset.SetNamespace | integration/jena/src/main/java/com/github/jsonldjava/jena/JenaRDFParser.java:85 | `setNamespace` binds, or rebinds, one prefix |

## Left out

- Jena's own classes and iterators (`Graph.find`, `Model.listSubjects`, `listStatements`, `DatasetGraph.listGraphNodes`) are library code outside this model. Their results are given as finite sequences in a fixed order. `listStatements(subject, null, null)` is modelled as the model's statements filtered by subject, in order.
- The internals of `RDFDataset` are not part of this model. Its `addTriple` is assumed to file its quad under "@default".
- Dataset.RdfDataset.constructor, Dataset.AppendQuads, Conversion.AppendNamedGraphsKeys, Conversion.DatasetPartition, Parser.JenaRdfParser.Parse: a new `RDFDataset` is assumed to hold no graph entries and no namespaces, and a graph is assumed to get an entry only when its first quad is filed. That class is not part of this model. If it creates an empty "@default" entry up front, the claims about which graph names have entries do not hold for it. These are the `.Keys` clauses, and `Parse`'s whole-map equation, which for null input gives `map[]`. The claims about the quads filed under each name (the `Lookup` clauses) hold either way.
- `parse` tests its argument against `DatasetGraph`, then `Resource`, then `Model`, in that order (lines 167-173). The model's `Input` makes the three shapes disjoint. An object that is more than one of them would go to the first test it matches, and the model does not represent such an object.
- The two `getID` overloads differ only in how Jena gives the native label: `getBlankNodeLabel()` for a graph `Node`, `getId().toString()` for a `Resource`. Both are modelled as one `GetId` on a native label.
- The thread safety of the `AtomicInteger` and the no-op `remove()` of the generator are not modelled, because concurrency is out of scope.
- `setPrefix` is an empty stub and is not modelled.
- A named graph is modelled only with an IRI name. A graph node that is not an IRI, where `getURI()` gives no name, is not modelled.
- The message text of the `JsonLdError` is not modelled; only its kind, INVALID_INPUT, is.
- A `Resource` with no model, on which `getModel()` would be null, is not modelled: a resource input always carries its model.
- Parser.JenaRdfParser.CopyNamespaces: the order in which the prefix map yields its keys is left open (any order gives the same final map), so the order of the `setNamespace` calls is not pinned down.
- BlankNames.NamesInjective: distinct labels are proved to get distinct names only while at most 2^32 labels are recorded. Beyond that the Java `int` counter wraps, and BlankNames.BlankNameRepeats shows a repeated name.
- Conversion.ModelCoversStatements: it assumes `listSubjects` lists each subject once and covers every statement's subject. Jena guarantees this; it is a property of `listSubjects`, not of this class.

## Notes on the code

One would expect two blank labels never to share a name. The code keeps the
counter in a Java `int`, which wraps after 2^32 names back to a name already
issued. The model follows the code: the wrap-around is modelled, and the
injectivity lemmas are bounded accordingly.

Nothing in the source says whether keeping `_bns` across `parse` calls is
intended. The model follows the code: `Parse` never resets the map and only
extends it.

An IRI is passed through verbatim, so an IRI node whose IRI is "_:t1" gets
the same identity as the first blank node. Conversion.IdInjective therefore
requires that no IRI starts with "_:". Conversion.IriBlankCollision shows that
without that condition, blank and IRI identities collide.
