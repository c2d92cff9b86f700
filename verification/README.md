# HTLK analysis kernels in Dafny

HTLK compiles workflow source into a canonical graph and checks that graph before it may
run. This project models the checks with the most state and branching and proves what they
decide. Code that updates state is modelled by classes and loops whose contracts tie them to
specification functions and relations; the properties are proved about those.

The chains of results:

* **Generic inference** (`types`, `bindings`, `unifiers`, `unification`, `deferral`,
  `deferral_proofs`, `checker`): variable bindings stay acyclic by a rank; `Unify` on
  union-free types keeps exactly the solutions that make two types equal, so that what it
  leaves behind is a most general unifier; the deferred rounds end because each lowers the
  number of free variables, and when they end well every union that was ever put off is
  decided under the final bindings.
* **Compatibility** (`values`, `compatible`, `compatible_proofs`, `compatible_exact`,
  `callback_exact`, `disjointness`): types are given a meaning as sets of values, with open
  records and callbacks as functions; an answer of yes is inclusion, and an accepted
  constraint delivers a value of the expected port. A refusal is not disjointness; a test on
  the two types decides which pairs are disjoint. A pair that shares a value with all its
  parts is not refused, and where union members can be told apart yes is exactly inclusion.
* **Schema hints** (`schemas`, `schema_shapes`, `schema_hints`, `schema_families`,
  `schema_exact`, `schema_typing`): validity of JSON Schema keywords is a predicate that
  every validator of a catalog must satisfy, cyclic references included; masks and shapes
  are sound for all of them, and feed back into compatibility. On schemas without
  alternatives the hinted type holds exactly the instances; on combinations of types the
  mask is exact.
* **Wait graphs** (`graphs`, `kahn`, `wait_graph`, `wait_order`, `graph_verify`, `guards`):
  a scope use is accepted exactly when it is admissible; its order is the least topological
  one, every run goes on to completion, and outcomes are observable. Candidate edges flagged
  exclusive never fire together.
* **Composition** (`join`, `join_graph`): two graphs are joined through their public ports;
  each operand input is bound at most once, and the wrapper is admitted exactly when join
  edges run one way and both operands are seen.
* **Structural bounds** (`structure`, `structure_analysis`, `linked_structure`,
  `expansion`): the leaf-to-root pass with checked arithmetic and early rejection succeeds
  exactly when the recursively defined depth and node counts of the root exist and fit; a
  document that passed the link checks always has them, and they fit the policy exactly when
  no execution breaks it.
* **Dependency traversals** (`chains`, `memoised`, `packages`, `modules`): depth limits
  enforced through remembered heights decide the same as limits on every chain; module
  tables are in post-order with each module once.
* **JSON** (`integral_tokens`, `json`, `json_parser`, `json_round_trip`, `json_output`,
  `json_reader`, `json_grammar`, `json_complete`, `json_sound`, `json_canonical`,
  `json_document`): safe integers among decimal tokens; the writer within its limits;
  reading back what was written; the reader accepts exactly a declarative grammar, and the
  canonical reader exactly the writer's image, which is the spellings of trees without
  space, with shortest literals and keys in order.
* **Expressions** (`syntax`, `expression_parser`, `expression_soundness`,
  `expression_nesting`, `expression_completeness`, `parser`): under every nesting limit
  precedence climbing accepts exactly the texts of a declarative grammar that need no more
  nesting, each with one reading, and reads minimal printings back.
* **Schema resources** (`schema_resources`, `dot_segments`): the ancestor stack gives
  longest proper prefixes, so bases and owners are the folds they should be; dot removal
  refines a segment stack (section 5.2.4 of RFC 3986).
* **Record closure** (`documents`, `mentions`, `scope_order`, `linkage`): a compiled
  document holds exactly what its root reaches, and passes the link checks when the pool
  resolves every mention within reach.

Sets stand for canonically ordered collections wherever order cannot be observed. Schema
validity, evaluation of other guard forms, URI resolution and digests are parameters.
Parsers return the written text with its parentheses in the specification and the plain tree
in the program; limits appear as error outcomes.

## Model

| member | source | states |
|---|---|---|
| Types.HasVariableVars | crates/htlk-analyzer/src/type_check.rs:2029-2040 | the recursive test for variables answers exactly whether the set of variables is empty |
| Bindings.BindRanked | crates/htlk-analyzer/src/type_check.rs:1571-1577 | binding a free variable that does not occur in the type keeps the bindings acyclic: every key still stands above the variables of its value |
| Bindings.HeadOccurs | crates/htlk-analyzer/src/type_check.rs:1546-1563 | the occurs check may look at the dereferenced head instead of the type |
| Bindings.ResolveVars | crates/htlk-analyzer/src/type_check.rs:1541-1545 | full substitution leaves no bound variable behind, and brings in only variables of the type or of bindings |
| Bindings.ResolveDepth | crates/htlk-analyzer/src/type_check.rs:1541-1545 | a substituted type is no deeper than the rank of the original, the measure by which inference ends |
| Inference.Checker.Fresh | crates/htlk-analyzer/src/type_check.rs:895-909 | a new variable has never been bound and belongs either to a call site or to an empty list |
| Inference.Checker.Deref | crates/htlk-analyzer/src/type_check.rs:1510-1534 | following bindings ends at the head that the acyclic bindings define, by rank and not by a work budget |
| Inference.Checker.OccursIn | crates/htlk-analyzer/src/type_check.rs:1546-1563 | the search through shared structure answers exactly whether the variable occurs in the fully substituted type |
| Inference.Checker.Substitute | crates/htlk-analyzer/src/type_check.rs:1461-1509 | rebuilding a type child by child gives the full substitution, unions flattened |
| Inference.Checker.Unify | crates/htlk-analyzer/src/type_check.rs:1564-1673 | one call keeps the bindings acyclic and growing with no key overwritten, and ends; on union-free types it keeps exactly the solutions of the old bindings that make the two types equal, succeeds exactly when everything compared is settled under the bindings it leaves, and fails exactly when a compared pair meets the occurs check or a different number of callback parameters |
| Inference.Checker.Bind | crates/htlk-analyzer/src/type_check.rs:1571-1577 | fails exactly on the occurs check, and otherwise adds one binding and changes none |
| Inference.Checker.UnifyPairs | crates/htlk-analyzer/src/type_check.rs:1582-1612 | children are unified in order up to the first failure, with the same exact effect on solutions |
| Inference.Checker.UnifyUnion | crates/htlk-analyzer/src/type_check.rs:1613-1669 | members without variables absorb what they accept; one candidate is unified with the union of the rest, with its success or failure decided; two or more put off exactly this pair, which is remembered; with none, what is left over is dropped |
| Inference.UnifyClash | crates/htlk-analyzer/src/type_check.rs:1670 | unifying a list with a text returns success and leaves everything unchanged, though the two have no unifier |
| Inference.Checker.SolveDeferred | crates/htlk-analyzer/src/type_check.rs:798-810 | every round but the last leaves fewer variables free, so the loop ends; on success every pair that was ever put off has been decided: nothing was left over, no member could take it, or the one that could is settled with the rest; ambiguity means that every waiting pair still leaves values over for two or more members, and any other failure that the one candidate of some pair does not fit |
| Inference.Checker.Finish | crates/htlk-analyzer/src/type_check.rs:379-393 | success, with everything put off decided, means that the variables of all calls had types without variables, that empty-list holes without a binding became json and nothing else changed, and that no substituted type contains a variable; an unresolved generic is a call variable whose type keeps a variable after all pairs are decided |
| Inference.Checker.CheckResolved | crates/htlk-analyzer/src/type_check.rs:380-387 | answers exactly whether some call variable still has a type with variables |
| Inference.Checker.DefaultHoles | crates/htlk-analyzer/src/type_check.rs:388-393 | binds exactly the empty-list variables that have no binding, each to json |
| DeferralProofs.DecidedNow | crates/htlk-analyzer/src/type_check.rs:798-810 | a decided pair is met under the final bindings: the members without variables take everything, no member has variables, or the one that has is settled with what is left over |
| DeferralProofs.ResolveTwice | crates/htlk-analyzer/src/type_check.rs:1541-1545 | substituting early changes nothing: what was decided in an earlier round reads the same under all later bindings |
| DeferralProofs.UncoveredIff | crates/htlk-analyzer/src/type_check.rs:1638-1652 | a type is left over exactly when none of the members without variables holds all of its values |
| Deferral.OutcomeDecides | crates/htlk-analyzer/src/type_check.rs:1638-1669 | one attempt at a pair decides it for all later bindings or puts it off again unchanged |
| Inference.Partition | crates/htlk-analyzer/src/type_check.rs:1623-1637 | splits a union into members with and without variables, none lost and none repeated |
| Unifiers.RecursiveHasNoUnifier | crates/htlk-analyzer/src/type_check.rs:1546-1563 | when the occurs check fires no substitution that extends the bindings makes the two types equal |
| Unifiers.FactorsThrough | crates/htlk-analyzer/src/type_check.rs:1541-1545 | every solution of the bindings gives a type and its full substitution the same meaning |
| Unifiers.MostGeneral | crates/htlk-analyzer/src/type_check.rs:1510-1612 | bindings that entail an equation make the two substituted types equal, are solved by their own substitution, and every other solution factors through it |
| Unification.UnifiableIff | crates/htlk-analyzer/src/type_check.rs:1564-1673 | two union-free types are unifiable over the old bindings exactly when the call succeeds and their full substitutions under the new bindings are one type |
| Unification.EntailsIff | crates/htlk-analyzer/src/type_check.rs:1541-1612 | bindings make two types equal in every solution exactly when their full substitutions are one type |
| Unification.SettledNeverFails | crates/htlk-analyzer/src/type_check.rs:1578-1673 | types whose compared parts agree or clash in shape meet no failure below them |
| Unification.SettledGrows | crates/htlk-analyzer/src/type_check.rs:1578-1612 | types that have settled stay settled under all later bindings |
| Unification.UnifyMostGeneral | crates/htlk-analyzer/src/type_check.rs:1564-1673 | on unifiable types the bindings left behind are a most general unifier |
| Unification.ClashSucceeds | crates/htlk-analyzer/src/type_check.rs:1670 | a clash of constructors is not an error of unification: a list and a text have no unifier, are settled at once and have nothing to compare |
| Unification.ComponentsExact | crates/htlk-analyzer/src/type_check.rs:1582-1612 | on union-free types of equal shape the compared pairs are exactly what equality needs |
| CompatibilitySound.YesSound | crates/htlk-analyzer/src/type_check.rs:1847-2010 | when compatibility answers yes every value of the actual type is a value of the expected one: open records, optional fields, unions, nested callbacks |
| CompatibilitySound.FunctionSound | crates/htlk-analyzer/src/type_check.rs:1985-2007 | callbacks may be given in place of others when parameters are contravariant and results covariant |
| CompatibilitySound.RecordFieldSound | crates/htlk-analyzer/src/type_check.rs:1918-1961 | a record field, required or optional, is delivered by an accepted record or map |
| CompatibilitySound.SharedValueSharedFamily | crates/htlk-analyzer/src/type_check.rs:1824-1839 | the family test never separates two types that share a value |
| CompatibilitySound.NeverIsNotDisjoint | crates/htlk-analyzer/src/type_check.rs:1917 | never does not mean disjoint: the empty list inhabits two types that are refused |
| Disjointness.SeparatesApart | crates/htlk-analyzer/src/type_check.rs:1850-2010 | types told apart by families, enumerations or a field that one side requires share no value, through unions and nested records and maps |
| Disjointness.SeparatedIsNever | crates/htlk-analyzer/src/type_check.rs:1850-2010 | a concrete type told apart by families, enumerations or fields it requires itself is refused |
| Disjointness.RefusalIsDisjointness | crates/htlk-analyzer/src/type_check.rs:1850-2010 | among concrete types a refused pair shares no value exactly when that test tells it apart, and a pair that shares none is refused or left to run time |
| Disjointness.ApartIff | crates/htlk-analyzer/src/type_check.rs:1850-2010 | on scalars, lists, maps, records, enumerations and their unions the test decides exactly whether any value inhabits both types |
| Disjointness.ApartIsNotYes | crates/htlk-analyzer/src/type_check.rs:1850-2010 | a concrete type is never found compatible outright with one it shares no value with |
| Disjointness.RuntimeMissesApart | crates/htlk-analyzer/src/type_check.rs:1918-1961 | a field the actual record may omit is left to run time even when its types share no value |
| CompatibilitySound.DischargeSound | crates/htlk-analyzer/src/type_check.rs:424-445 | a value of the actual port that passes the emitted checks is a value of the expected port, and a callback needs no check |
| CompatibilityExact.FullNotNever | crates/htlk-analyzer/src/type_check.rs:1847-2010 | types are not refused when a value of the actual one that shows all its parts, with no empty list or map and no undeclared field, is also a value of the expected one |
| CompatibilityExact.PlainNotRefused | crates/htlk-analyzer/src/type_check.rs:424-445 | a plain constraint is not refused while such a value could pass |
| CompatibilityExact.YesIff | crates/htlk-analyzer/src/type_check.rs:1847-2010 | on inhabited types of scalars, lists, maps, records and enumerations, against types whose union members differ in family, yes is exactly inclusion of values, and run time is only answered when some value of the actual type would fail |
| CompatibilityExact.CallbackIff | crates/htlk-analyzer/src/type_check.rs:424-437 | there a callback is accepted exactly when all it may yield is allowed |
| CompatibilityExact.ChecksNeeded | crates/htlk-analyzer/src/type_check.rs:438-445 | there every emitted check can fail for something the producer yields |
| CompatibilityExact.RuntimeNeeded | crates/htlk-analyzer/src/type_check.rs:1847-1910 | among scalars, enumerations and unions of them an answer left to run time has a value outside the expected type exactly when some part of the actual type is neither accepted by one member nor an enumeration that several members share out |
| CompatibilityExact.SharedAtRuntime | crates/htlk-analyzer/src/type_check.rs:1887-1903 | such sharing exists: an enumeration of two texts against one enumeration for each is included and yet left to run time |
| CompatibilityExact.AcceptedIff | crates/htlk-analyzer/src/type_check.rs:1638-1652 | some member of a list accepts a type exactly when the values of one member include its values |
| CallbackExact.FunctionIff | crates/htlk-analyzer/src/type_check.rs:1985-2007 | between callbacks whose parameter and result types can be told apart by values, yes is answered exactly when in every world one may be used for the other |
| CallbackExact.ToJsonIff | crates/htlk-analyzer/src/type_check.rs:1904-1917 | a builtin type is accepted as JSON outright exactly when all its values are JSON in every world; numbers are not, for their range |
| CallbackExact.EnumToJson | crates/htlk-analyzer/src/type_check.rs:1904-1917 | the values of an enumeration are JSON, and yet it is left to run time |
| SchemaTyping.HintTable | crates/htlk-analyzer/src/type_check.rs:1809-1839 | the hints walked from the roots of all schemas in a table are together the sound refinements that compatibility relies on, and those of plain schemas hold exactly the instances |
| SchemaTyping.HintedSound | crates/htlk-analyzer/src/type_check.rs:1824-1839 | sound hints for the listed schemas, with plain JSON for any other, refine every schema type soundly |
| Schemas.TypeMaskSound | crates/htlk-analyzer/src/schema_hints.rs:370-397 | the family of any value that the type keyword allows is in the keyword's mask |
| SchemaHints.OwnMaskSound | crates/htlk-analyzer/src/schema_hints.rs:294-305 | type, const and enum, compared as JSON values with numbers by value, only allow values of the mask they contribute |
| SchemaHints.Walker.Walk | crates/htlk-analyzer/src/schema_hints.rs:254-276 | whatever the reference cycles, active set and depth cut-off, the mask contains the family of every value present at the path in a valid instance, and it is the mask that the tightness results are about |
| SchemaHints.Walker.At | crates/htlk-analyzer/src/schema_hints.rs:277-369 | references, applicators, type, const and enum only narrow the mask soundly |
| SchemaHints.Walker.Shape | crates/htlk-analyzer/src/schema_hints.rs:84-102 | a structural hint is inhabited by every value present at the path in a valid instance; there is one exactly when references and the path lead to a readable type keyword, and then its values are exactly those the keywords on the way describe |
| SchemaHints.Walker.ShapeAt | crates/htlk-analyzer/src/schema_hints.rs:103-223 | the same through references, object properties with their required flags, array items and types |
| SchemaHints.Walker.ShapeObject | crates/htlk-analyzer/src/schema_hints.rs:202-218 | nested record hints: each listed field, when present, inhabits its type, and required fields are never absent |
| SchemaHints.Walker.ProjectionHint | crates/htlk-analyzer/src/schema_hints.rs:17-73 | the hint given to typing holds of every value at the path; it is the shape, with its flag, whenever there is one, and otherwise the union of the families in the mask, required at the root |
| SchemaHints.MaskTypeSound | crates/htlk-analyzer/src/schema_hints.rs:44-71 | the union built from a mask holds every JSON value whose family is in the mask |
| SchemaFamilies.OwnMaskIff | crates/htlk-analyzer/src/schema_hints.rs:294-305 | a family is in the mask of a schema's own keywords exactly when each of type, const and enum by itself allows some value of it |
| SchemaFamilies.LocalMask | crates/htlk-analyzer/src/schema_hints.rs:294-343 | at a location without references and applicators the mask at the empty path is that of its own keywords |
| SchemaFamilies.MaskWithin | crates/htlk-analyzer/src/schema_hints.rs:344-366 | references and allOf only narrow: the mask lies within those of the target and of every branch |
| SchemaFamilies.MaskChosen | crates/htlk-analyzer/src/schema_hints.rs:351-366 | each family that anyOf or oneOf leaves is in the mask of one of its branches |
| SchemaFamilies.StepWithin | crates/htlk-analyzer/src/schema_hints.rs:306-340 | a step into what cannot be an object or an array leaves no family, and any other stays within the mask of the property, prefix item, item or additional property |
| SchemaFamilies.MaskTypeIff | crates/htlk-analyzer/src/schema_hints.rs:39-72 | a mask that is not empty is hinted as a type of exactly the JSON values whose family is in it |
| SchemaFamilies.FamilyMask | crates/htlk-analyzer/src/schema_hints.rs:254-366 | on schemas of types and their combinations, by references, allOf, anyOf and oneOf without overlap, the mask is exact: it holds the family of a value exactly when the schema allows the value |
| SchemaFamilies.FamilyHint | crates/htlk-analyzer/src/schema_hints.rs:17-73 | such a schema, when it has an instance and no structural type, is hinted as exactly its instances |
| SchemaExact.PlainMeets | crates/htlk-analyzer/src/schema_hints.rs:103-223 | the structural type of a plain schema, nested properties, required names, items and references included, holds exactly what the schema allows |
| SchemaExact.PlainShaped | crates/htlk-analyzer/src/schema_hints.rs:84-223 | a plain schema within the depth always has a structural type |
| SchemaExact.PathMeets | crates/htlk-analyzer/src/schema_hints.rs:103-175 | a path through plain schemas has the structural type of the schema it leads to, required exactly when every step is |
| SchemaExact.PlainHint | crates/htlk-analyzer/src/schema_hints.rs:17-36 | the hint of a path into a plain schema holds exactly the instances of the schema it leads to, and is required along field names exactly when no instance can omit the value |
| SchemaExact.KindHint | crates/htlk-analyzer/src/schema_hints.rs:176-223 | whatever else a schema says, its structural hint holds only values that the type keyword allows, an integer being hinted as a number, and only objects with the required fields it describes |
| Graphs.NoSourceIsCyclic | crates/htlk-analyzer/src/graph_verify.rs:769-782 | when every remaining vertex has a predecessor there is a cycle |
| Graphs.TopologicalIsAcyclic | crates/htlk-analyzer/src/graph_verify.rs:769-782 | a graph with a topological order has no cycle |
| Kahn.Build | crates/htlk-analyzer/src/graph_verify.rs:749-762 | successor lists and in-degrees count exactly the dependencies |
| Kahn.Order | crates/htlk-analyzer/src/graph_verify.rs:747-782 | fails exactly on cyclic dependencies; otherwise the order is a permutation that respects them and is the lexicographically least such one |
| Kahn.GreedyIsLeast | crates/htlk-analyzer/src/graph_verify.rs:763-779 | always taking the least ready vertex gives the least of all topological orders |
| Kahn.StuckIsCyclic | crates/htlk-analyzer/src/graph_verify.rs:780-782 | running out of ready vertices early means there is a cycle |
| WaitGraph.CompletionIsUniqueSink | crates/htlk-analyzer/src/graph_verify.rs:509-612 | in every admissible scope completion is the only event that nothing waits for |
| WaitGraph.AllLeadToSink | crates/htlk-analyzer/src/graph_verify.rs:735-746 | in an acyclic graph with one sink every event leads to it |
| WaitGraph.RunExtends | crates/htlk-analyzer/src/graph_verify.rs:747-782 | a scheduler that fires events after what they wait for never gets stuck before completion |
| WaitGraph.CompletionEndsRun | crates/htlk-analyzer/src/graph_verify.rs:509-612 | when completion has fired every event has, and completion is last |
| GraphVerify.Collect | crates/htlk-analyzer/src/graph_verify.rs:551-612 | the nodes and edges contribute exactly the dependencies of the scope |
| GraphVerify.Coverage | crates/htlk-analyzer/src/graph_verify.rs:692-700 | accepts exactly when every required destination has a candidate and none has two unconditional writers |
| GraphVerify.UnconditionalPairs | crates/htlk-analyzer/src/graph_verify.rs:698-700 | at most one unconditional writer is the same as no two distinct ones |
| GraphVerify.Live | crates/htlk-analyzer/src/graph_verify.rs:783-793 | the backward worklist finds exactly the vertices that reach an observed one |
| GraphVerify.CheckObservable | crates/htlk-analyzer/src/graph_verify.rs:783-799 | accepts exactly when every node's outcome reaches an observed output, next value, postcondition or termination test |
| GraphVerify.SameCycles | crates/htlk-analyzer/src/graph_verify.rs:747-762 | numbering the vertices neither adds nor loses a cycle |
| GraphVerify.OrderOf | crates/htlk-analyzer/src/graph_verify.rs:747-782 | the order of the scope's own events, least by index |
| GraphVerify.CompletionLast | crates/htlk-analyzer/src/graph_verify.rs:763-782 | every accepted order ends with completion |
| GraphVerify.Verify | crates/htlk-analyzer/src/graph_verify.rs:475-811 | a scope use is accepted exactly when it is fit to run; the plan orders every event once, and in it everything a guard reads, the producer of an edge, admissions, inputs, outcomes, results and conditions come in turn |
| GraphVerify.PlanInTurn | crates/htlk-analyzer/src/graph_verify.rs:747-782 | in every plan what an edge guard reads and its producer's outcome stand before its destination, what a node's guard reads before its admission, admission before inputs, inputs before the outcome, results and conditions before the boundary |
| WaitOrder.DependenciesIff | crates/htlk-analyzer/src/graph_verify.rs:509-690 | the dependencies are exactly what nodes, edges, guards and the end of the scope lay down, said event by event |
| WaitOrder.RunInTurn | crates/htlk-analyzer/src/graph_verify.rs:735-746 | every run of a scope takes events in that order, finished or not |
| WaitOrder.AdmissibleIff | crates/htlk-analyzer/src/graph_verify.rs:475-811 | admissible means fit to run: destinations and references exist, what is required is fed, no two unconditional edges share a destination, no event waits for itself, every outcome leads to something visible |
| WaitOrder.GuardOnItself | crates/htlk-analyzer/src/graph_verify.rs:682-690 | a scope whose edge guard reads an event that waits for that edge's destination is not admissible |
| WaitOrder.InputOnOwnOutcome | crates/htlk-analyzer/src/graph_verify.rs:682-690 | an input fed under a guard that reads its own node's outcome makes a scope inadmissible |
| WaitOrder.NodeOnItself | crates/htlk-analyzer/src/graph_verify.rs:551-612 | so does a node guard that reads an event coming after the node's admission |
| Guards.ExclusiveSound | crates/htlk-analyzer/src/graph_verify.rs:812-841 | guards found exclusive never hold together, however the rest of them evaluates |
| Guards.PlanBinding | crates/htlk-analyzer/src/graph_verify.rs:711-733 | the overlap flag of a destination is set exactly when every two of its candidate guards are found exclusive |
| Guards.AtMostOneHolds | crates/htlk-analyzer/src/graph_verify.rs:711-733 | when the flag is set at most one edge that writes the destination has a guard that holds |
| Guards.CandidateAt | crates/htlk-analyzer/src/graph_verify.rs:614-628 | every edge that writes the destination is a candidate, in the order of the edges |
| Guards.KindsNotCompared | crates/htlk-analyzer/src/graph_verify.rs:837-838 | guards that compare one value with literals of two kinds never hold together but are not found exclusive |
| Guards.ComparisonsExclusive | crates/htlk-analyzer/src/graph_verify.rs:820-841 | comparisons of one guard with literals, on either side, are found exclusive exactly for two literals of one kind |
| Guards.ComparisonsDecided | crates/htlk-analyzer/src/graph_verify.rs:820-841 | for literals of one kind that can be compared the test decides whether both guards can hold |
| Guards.FlagIff | crates/htlk-analyzer/src/graph_verify.rs:711-733 | the flag is cleared exactly by two edges that write the destination and are not found exclusive |
| Guards.AlwaysIff | crates/htlk-analyzer/src/graph_verify.rs:628-634 | an edge with a literally true guard leaves the flag set exactly when every other guard is literally false, or for at most one edge the negation of literal truth |
| Structure.PartAgrees | crates/htlk-analyzer/src/structure.rs:106-143 | solved parts of the recursive bounds agree with every solution: the bounds are unique |
| Structure.SolutionIffAcyclic | crates/htlk-analyzer/src/structure.rs:144-146 | the recursive depth and node counts exist exactly when every used definition is present and none uses itself |
| Structure.ReachedBelow | crates/htlk-analyzer/src/structure.rs:105-143 | what a definition needs is never more than what the root needs, since loops multiply by at least one |
| StructureAnalysis.Record | crates/htlk-analyzer/src/structure.rs:66-84 | one entry per use of a definition, counts and multipliers kept |
| StructureAnalysis.Contribute | crates/htlk-analyzer/src/structure.rs:110-137 | checked 64-bit arithmetic and the early bounds reject exactly what exceeds the policy |
| StructureAnalysis.Propagate | crates/htlk-analyzer/src/structure.rs:109-142 | applies one finished definition to all its users, pushing exactly those with nothing left to wait for; a rejection means some user already exceeds the policy |
| StructureAnalysis.CompleteOne | crates/htlk-analyzer/src/structure.rs:109-138 | finishing one definition changes each user's counts, depth and sum by exactly its uses |
| StructureAnalysis.RejectionIsRight | crates/htlk-analyzer/src/structure.rs:112-135 | an early per-definition rejection or overflow means the root's bounds exceed the policy |
| StructureAnalysis.StuckIsCycle | crates/htlk-analyzer/src/structure.rs:144-146 | unfinished definitions at the end mean a cycle, and then no bounds exist |
| StructureAnalysis.Analyze | crates/htlk-analyzer/src/structure.rs:46-157 | succeeds exactly when the root's recursive bounds exist and fit the policy, and returns those bounds whatever the order of the stack |
| LinkedStructure.SameEdges | crates/htlk-analyzer/src/structure.rs:64-84 | the uses that the bounds follow are the children that the link checks follow |
| LinkedStructure.RootedIff | crates/htlk-analyzer/src/linkage.rs:455-523 | what the bounds take for granted, that every definition is reached from the root, is exactly what the link checks establish |
| LinkedStructure.LinkedIsBounded | crates/htlk-analyzer/src/structure.rs:144-146 | a linked document always has bounds, so that only the policy can refuse it |
| LinkedStructure.VerifyStructure | crates/htlk-analyzer/src/linkage.rs:424-453 | a document passes links and bounds exactly when it is linked and the bounds of its root fit the policy; the cycle error of the bounds never occurs after the links |
| Expansion.RunBelow | crates/htlk-analyzer/src/structure.rs:19-36 | no execution of a scope, whatever its nodes start and however often its loops iterate, has more node invocations or nested scopes than the bounds say |
| Expansion.LongestRun | crates/htlk-analyzer/src/structure.rs:60-84 | some execution has exactly as many of both |
| Expansion.FitsIffKept | crates/htlk-analyzer/src/structure.rs:46-157 | the bounds of a linked document fit the policy exactly when no execution breaks it |
| Chains.BoundedIffAcyclic | crates/htlk-compiler/src/bundle.rs:325-358 | some depth bound holds from an item exactly when everything it reaches is present and on no cycle |
| Chains.HeightDecides | crates/htlk-compiler/src/bundle.rs:341-350 | a remembered height decides every depth bound |
| Chains.HeightUp | crates/htlk-compiler/src/bundle.rs:359-372 | one more than the greatest height among the dependencies is the longest chain |
| Chains.CycleUnbounded | crates/htlk-compiler/src/bundle.rs:325-340 | from a cycle no bound holds, so meeting an active item is a true failure |
| Packages.PackageVisitor.Visit | crates/htlk-compiler/src/bundle.rs:310-373 | the memoised visit succeeds exactly when every dependency chain from the package has at most the remaining number of packages and all of them are supplied; remembered heights are true longest chains |
| Packages.ValidateClosure | crates/htlk-compiler/src/bundle.rs:297-306 | accepts exactly the bundles whose chains from the entry fit and whose packages are all reached |
| Modules.Traversal.Visit | crates/htlk-compiler/src/modules.rs:45-149 | a module is accepted exactly when its import chains fit, every module it reaches plays its role, and the tokens of all parsed modules fit |
| Modules.Traversal.Reuse | crates/htlk-compiler/src/modules.rs:64-78 | a finished module is reused exactly when its remembered height still fits |
| Modules.Traversal.VisitImports | crates/htlk-compiler/src/modules.rs:103-133 | imports are visited in order; the alias table names the index of each target |
| Modules.Tallest | crates/htlk-compiler/src/modules.rs:135-139 | the greatest height among the imported modules |
| Modules.RejectVia | crates/htlk-compiler/src/modules.rs:126-132 | a rejected import means the importing module would be rejected without memoisation too |
| Modules.TotalAdd | crates/htlk-compiler/src/modules.rs:90 | the token total over a set of modules grows by each new module once |
| Modules.Session | crates/htlk-compiler/src/modules.rs:10-33 | the module table holds exactly the modules reached from the root, each parsed once, every import before its importer, and the root where its index says |
| Json.OrderedIsSorted | crates/htlk-executable/src/json.rs:598-603 | object keys are written once each by increasing UTF-16 code units |
| Json.SortKeys | crates/htlk-executable/src/json.rs:603 | sorting by repeatedly taking the least key gives that order |
| Json.Utf16Injective | crates/htlk-executable/src/json.rs:603 | different keys have different code units, so the order is total |
| IntegralTokens.CheckIntegralToken | crates/htlk-executable/src/json.rs:434-479 | on the digits and the exponent as held in 64 bits, rejects exactly the integer-valued tokens above 2^53 - 1 |
| IntegralTokens.CheckToken | crates/htlk-executable/src/json.rs:396-427 | the same for exponents of any length, scanned with saturating arithmetic |
| IntegralTokens.ClampDecides | crates/htlk-executable/src/json.rs:453-459 | saturation never changes what is decided |
| IntegralTokens.ShiftedSafe | crates/htlk-executable/src/json.rs:452-478 | a number with a last significant digit other than zero is an integer exactly when its shift is not negative, and then lies within its decimal width |
| IntegralTokens.GreaterIsNumeric | crates/htlk-executable/src/json.rs:474 | comparing sixteen digits as text compares the numbers |
| IntegralTokens.Scan | crates/htlk-executable/src/json.rs:439-448 | one pass finds the first and last digit other than zero |
| JsonRoundTrip.StringBack | crates/htlk-executable/src/json.rs:299-356 | reading an escaped text gives the text back, control characters and all |
| JsonRoundTrip.NumberBack | crates/htlk-executable/src/json.rs:372-431 | reading a printed safe integer gives the integer back |
| JsonRoundTrip.ValueBack | crates/htlk-executable/src/json.rs:211-296 | wherever canonical text stands before a delimiter it reads back as the value it was written from |
| JsonRoundTrip.RoundTrip | crates/htlk-executable/src/json.rs:25-47 | printing then parsing gives the value back under the same depth limit |
| JsonReader.Reader.ValueAt | crates/htlk-executable/src/json.rs:211-233 | the reader that moves a position reads what the grammar functions read |
| JsonReader.Reader.ObjectAt | crates/htlk-executable/src/json.rs:264-296 | objects accumulate distinct keys; a repeated key fails |
| JsonReader.Reader.Str | crates/htlk-executable/src/json.rs:299-356 | string literals with escapes and surrogate pairs |
| JsonReader.Reader.Number | crates/htlk-executable/src/json.rs:372-431 | number tokens: digits, fraction and exponent, then the safety check |
| JsonOutput.Output.WriteValue | crates/htlk-executable/src/json.rs:540-566 | writes the canonical text exactly when the value can be written and all of it fits the byte limit |
| JsonOutput.Output.WriteObject | crates/htlk-executable/src/json.rs:584-615 | the same for objects, including the early size test |
| JsonDocuments.New | crates/htlk-executable/src/json.rs:25-47 | normalises exactly the texts of the JSON grammar within the limits whose value can be written back within them |
| JsonComplete.DocumentComplete | crates/htlk-executable/src/json.rs:25-47 | every text of the grammar that nests no deeper than allowed is read as the value it means |
| JsonSound.DocumentSound | crates/htlk-executable/src/json.rs:211-431 | whatever is read is a text of the grammar: its space, escapes, digits and distinct keys, and the value is what it means |
| JsonSound.ReadsGrammar | crates/htlk-executable/src/json.rs:25-47 | the reader accepts exactly the texts of the grammar under every nesting limit, each with the value it means |
| JsonSound.OneMeaning | crates/htlk-executable/src/json.rs:211-431 | no text has two meanings |
| JsonDocuments.Decode | crates/htlk-executable/src/json.rs:48-58 | accepts exactly the texts the writer produces, each as the value it was written from; each is the spelling of a tree without space, with least literals, plain numerals and keys in increasing order |
| JsonCanonical.EscapeShortest | crates/htlk-executable/src/json.rs:536-539 | for every spelling of a character the written one is no longer, and has lower-case digits |
| JsonCanonical.LiteralShortest | crates/htlk-executable/src/json.rs:536-539 | whatever the reader takes as a literal for a text is at least as long as the written literal |
| JsonCanonical.QuotedShortest | crates/htlk-executable/src/json.rs:536-539 | among all literals for a text the written one has least length, and no other of that length has only lower-case digits (section 3.2.2.2 of RFC 8785) |
| JsonCanonical.KeyLessIff | crates/htlk-executable/src/json.rs:603 | ordering keys by UTF-16 code units is ordering texts by characters with those outside the basic plane between those below and above the surrogates |
| JsonCanonical.WrittenIff | crates/htlk-executable/src/json.rs:540-615 | a text is what is written for a value exactly when it is the spelling of a tree of that meaning without space, with least literals, plain numerals and keys in increasing order |
| JsonDocuments.FromValue | crates/htlk-executable/src/json.rs:64-67 | succeeds exactly on values that can be written, so reading back never fails |
| JsonDocuments.PrintInjective | crates/htlk-executable/src/json.rs:540-566 | different values have different canonical texts |
| SchemaResources.DescendantsTogether | crates/htlk-analyzer/src/schema_locations.rs:109 | in token order the descendants of a location stand together |
| SchemaResources.PopToAncestor | crates/htlk-analyzer/src/schema_resources.rs:87-93 | popping while the top is no prefix leaves exactly the earlier locations on the way to the pointer |
| SchemaResources.TopIsParent | crates/htlk-analyzer/src/schema_resources.rs:94 | the top of the stack is the longest proper prefix among all locations |
| SchemaResources.BaseStep | crates/htlk-analyzer/src/schema_resources.rs:95-126 | the base and owner taken from the parent are those defined by folding every `$id` on the way to the pointer |
| SchemaResources.AddResource | crates/htlk-analyzer/src/schema_resources.rs:113-120 | a URI claimed by two locations is refused, and nothing else is |
| SchemaResources.AddAnchors | crates/htlk-analyzer/src/schema_resources.rs:134-156 | an anchor claimed twice within one resource is refused, and nothing else is |
| SchemaResources.New | crates/htlk-analyzer/src/schema_resources.rs:66-163 | succeeds exactly when every `$id` resolves and no URI or anchor is claimed twice; bases, owners, resources and anchors are as defined |
| DotSegments.RemoveDots | crates/htlk-analyzer/src/schema_resources.rs:373-398 | the buffer algorithm computes the segment-stack normaliser on every path |
| DotSegments.NormalTwice | crates/htlk-analyzer/src/schema_resources.rs:373-398 | normalising twice is normalising once, for every path |
| DotSegments.AbsoluteResult | crates/htlk-analyzer/src/schema_resources.rs:373-398 | on absolute paths the result starts with a slash and has no dot segment |
| DotSegments.TruncatePops | crates/htlk-analyzer/src/schema_resources.rs:387 | truncating at the last slash removes exactly the last segment |
| Syntax.MinimalIsGrammatical | crates/htlk-compiler/src/parser.rs:675-739 | a tree printed with parentheses only where the grammar needs them is grammatical and keeps the tree |
| ExpressionSoundness.ParseSound | crates/htlk-compiler/src/parser.rs:675-739 | whatever is accepted is grammatical and is exactly the tokens read; no tighter operator follows |
| ExpressionSoundness.ClimbSound | crates/htlk-compiler/src/parser.rs:687-736 | the climbing loop only builds comparisons of plain operands and groups and, or to the left |
| ExpressionCompleteness.Complete | crates/htlk-compiler/src/parser.rs:675-880 | every grammatical text that ends where nothing extends it and whose nesting is allowed is read as itself |
| ExpressionNesting.ParseFits | crates/htlk-compiler/src/parser.rs:675-880 | whatever is accepted needs no more nesting than allowed: brackets, negations, operators in a row and projections in a row all count |
| ExpressionCompleteness.AcceptsGrammar | crates/htlk-compiler/src/parser.rs:675-739 | under every nesting limit exactly the grammatical token lists that need no more than it are accepted, each as itself |
| ExpressionCompleteness.ReadIffNested | crates/htlk-compiler/src/parser.rs:675-739 | a grammatical text is read to its end exactly when the nesting it needs is allowed |
| ExpressionCompleteness.RoundTrip | crates/htlk-compiler/src/parser.rs:675-739 | parsing the minimal printing of a tree gives the tree back |
| ExpressionCompleteness.Unambiguous | crates/htlk-compiler/src/parser.rs:675-739 | no token list has two readings |
| Parsers.Parser.Expr | crates/htlk-compiler/src/parser.rs:675-739 | the loop over a position and a nesting depth computes the grammar function, and restores the depth |
| Parsers.Parser.PrimaryExpr | crates/htlk-compiler/src/parser.rs:740-880 | operands and projection chains |
| Parsers.Parser.ItemList | crates/htlk-compiler/src/parser.rs:750-764 | bracketed items with an optional trailing comma |
| Parsers.Parser.FieldList | crates/htlk-compiler/src/parser.rs:765-781 | record fields with plain or quoted keys |
| Parsers.ReadExpression | crates/htlk-compiler/src/parser.rs:675-739 | the object reads a token list to its end exactly when it has a grammatical reading within the nesting limit, and returns the tree of that reading |
| Documents.ExpressionDependencies | crates/htlk-compiler/src/lower.rs:1369-1388 | adds exactly the records an expression mentions |
| Mentions.UsesIff | crates/htlk-compiler/src/lower.rs:1369-1388 | an expression mentions exactly the libraries of the function references and calls, and the templates of the renderings, that stand anywhere inside it |
| Mentions.ScopeUsesIff | crates/htlk-compiler/src/lower.rs:1341-1368 | a scope mentions exactly what is named inside its conditions, edge guards, node guards, conditions, evaluations and loop tests, and what its nodes run or call |
| Mentions.ChildIff | crates/htlk-analyzer/src/linkage.rs:475-494 | the children of a scope are exactly the scopes its nodes run, sub-scopes plain and loop bodies as bodies |
| Documents.ScopeDependencies | crates/htlk-compiler/src/lower.rs:1341-1368 | adds exactly the records a scope mentions |
| Documents.Document | crates/htlk-compiler/src/lower.rs:1135-1160 | copies exactly the scopes, templates, bindings and libraries reached from the root |
| Linkage.ScopeRoles | crates/htlk-analyzer/src/linkage.rs:455-523 | accepts exactly when every scope runs from the root, every child is present and no scope runs itself; each scope has exactly the roles its users give it |
| ScopeOrder.CountDegrees | crates/htlk-analyzer/src/linkage.rs:498-503 | every scope is counted as often as others name it, repetitions included |
| ScopeOrder.Clear | crates/htlk-analyzer/src/linkage.rs:509-518 | emitting a scope takes away exactly what it names and stacks exactly what nothing names any more |
| ScopeOrder.NoCycle | crates/htlk-analyzer/src/linkage.rs:498-521 | emitting scopes that nothing remaining names reaches all of them exactly when no scope runs itself |
| ScopeOrder.LeftOver | crates/htlk-analyzer/src/linkage.rs:519-521 | scopes left over at the end run each other in a circle |
| Linkage.RolesFound | crates/htlk-analyzer/src/linkage.rs:462-494 | at the end of the worklist nothing that follows is missing and nothing found is unjustified |
| Linkage.Expressions | crates/htlk-analyzer/src/linkage.rs:541-607 | fails exactly when a mentioned record is missing, and otherwise collects exactly what is mentioned |
| Linkage.VerifyLinks | crates/htlk-analyzer/src/linkage.rs:424-523 | accepts exactly linked documents: all scopes run, none runs itself, every mention resolves, every record is used |
| Linkage.DocumentLinks | crates/htlk-analyzer/src/linkage.rs:424-523 | a document closed by the compiler over a pool that resolves every mention within reach always passes the link checks |
| Join.BindEdges | crates/htlk-compiler/src/join.rs:253-265 | accepts exactly the edges that join an output of one operand to an input of the other, none repeated |
| Join.Expose | crates/htlk-compiler/src/join.rs:272-308 | one public input binds all its operand inputs, with their common type, required when any of them is |
| Join.ExposeAll | crates/htlk-compiler/src/join.rs:267-310 | public inputs are taken in the sorted order with entries numbered on; no operand input is bound twice |
| Join.SortInOrder | crates/htlk-compiler/src/join.rs:267-277 | sorting leaves no later element before an earlier one |
| Join.NamesIncrease | crates/htlk-compiler/src/join.rs:267-335 | the public inputs and outputs of an accepted request come in strictly increasing order of their names |
| Join.EndpointsOrderFree | crates/htlk-compiler/src/join.rs:276-277 | the operand inputs of a public input are taken in one order, however they are listed |
| Join.NumbersOrderFree | crates/htlk-compiler/src/join.rs:267-349 | accepted requests with the same public ports, listed in any order, give the same numbered edges |
| Join.Deliver | crates/htlk-compiler/src/join.rs:330-349 | public outputs are taken in the sorted order, each from an operand output under its own number |
| Join.Compose | crates/htlk-compiler/src/join.rs:213-349 | succeeds exactly on the accepted requests, and then has exactly the entries, exits and ports they describe |
| Join.BoundOnce | crates/htlk-compiler/src/join.rs:253-329 | no operand input has two entries, a required one has exactly one, and the entries are those the request names |
| Join.OutIdsDiffer | crates/htlk-compiler/src/join.rs:298-344 | generated identifiers never repeat |
| JoinGraph.DependencyIff | crates/htlk-compiler/src/join.rs:350-368 | the waits of the composed scope are those inside its two nodes, along join edges and to public outputs |
| JoinGraph.CyclicIff | crates/htlk-compiler/src/join.rs:350-381 | the composed scope waits in a cycle exactly when join edges run both ways |
| JoinGraph.ScopeCovered | crates/htlk-compiler/src/join.rs:311-368 | every required destination of the composed scope is fed, and none by two edges |
| JoinGraph.ObservableIff | crates/htlk-compiler/src/join.rs:350-381 | the composed scope is observable exactly when each operand has a public output or feeds an operand that has one |
| JoinGraph.AdmittedIff | crates/htlk-compiler/src/join.rs:350-387 | a composed scope is admissible exactly when join edges do not run both ways and both operands are seen |
| JoinGraph.JoinGraphs | crates/htlk-compiler/src/join.rs:213-387 | a composition succeeds exactly on accepted requests that are one-way and whose operands are both seen, with a least topological plan |

## Left out

- Byte and work budgets, allocation failures, diagnostics text, source spans and which of several errors is reported first. Depth, node, module, token and document size limits are modelled.
- Binary64 values in JSON text and floating literals in expressions, as the lines on JsonReader, JsonOutput, JsonDocuments and Parsers say. Native floats are reals.
- UTF-8 decoding: documents are sequences of Unicode scalar values, and sizes are those of their encoding. The bound on the decoded length of one string is left out because it never exceeds the document.
- JsonReader.Reader.ValueAt: number tokens that become binary64 values are reported as outside the model.
- JsonReader.Reader.Number: the same; tokens that are fractions but round to an integer belong there too.
- JsonOutput.Output.WriteValue: writes no binary64 values.
- JsonGrammar.GoodNumeral: the grammar covers all spellings of numbers that are safe integers; other numbers mean binary64 values and are outside the model.
- JsonDocuments.New: documents hold no binary64 numbers and are taken to be shorter than 2^62 bytes, so that lengths fit the 64-bit arithmetic of the number check.
- JsonDocuments.Decode: canonical texts with binary64 numbers are outside the model.
- JsonDocuments.FromValue: native floats are outside the model.
- Unification.UnifyMostGeneral: is about types built from variables, builtins, lists, maps, records and functions with presence flags erased. With unions a call may defer or absorb members; there `UnifyUnion` states what each call does, the bindings only grow and stay acyclic, what is put off is decided at the end, and `Finish` still leaves no variable.
- DeferralProofs.DecidedNow: is about unions whose members are themselves union-free, and bindings to such types; for others `SolveDeferred` says that each pair was decided under bindings that the final ones extend.
- DeferralProofs.UncoveredIff: is about types that `CompatibilityExact.YesIff` covers.
- Inference.Checker.Substitute: flattens unions by a recursive function, where the source keeps a worklist; the set of members is the same.
- Disjointness.ApartIff: leaves out schemas, callables, variables and the builtin JSON and record types, whose values depend on the world; `SeparatesApart` holds of all types.
- CompatibilityExact.YesIff: the actual type has no JSON, record builtin, schema, callable or variable in it and a value of every part, and members of an expected union differ in family; otherwise several members may share out the values of one type, as `SharedAtRuntime` shows.
- CompatibilitySound.YesSound: is about inclusion of values; comparison and length checks on families are not modelled. Yes is not transitive in the source.
- SchemaTyping.HintTable: takes it that the instances of a schema type are valid at the root of its document, which is what native validation establishes.
- SchemaExact.PlainHint: plain schemas have one type keyword other than integer, properties, required names that are declared, items, and references to such schemas; an integer is hinted as a number, const and enum only narrow masks, and cyclic schemas are cut by the walk.
- SchemaFamilies.FamilyMask: leaves out integer, which shares its family with all numbers, and const, enum and the keywords of members, of which a mask keeps only the families.
- SchemaHints.Walker.Shape: the required flag is a statement about objects along paths of field names. An element hint says nothing about whether an index is in range, as in the source.
- Schemas: regular expressions, formats and numeric or string bounds are left to the validator, which may only be stricter. `$dynamicRef` makes the shape unknown and does not narrow the mask, as in the source. A validator gives one verdict for each location and value; with `$dynamicRef` a verdict also depends on the way the location was reached, and that dynamic scope is a simplification here.
- GraphVerify.Verify: takes what each expression waits for as given; type analysis of the individual expressions is the subject of the inference modules, and use context and edge boundary checks are left out. Vertices are numbered in an arbitrary fixed order where the source uses the canonical one, and all statements hold for every numbering.
- Guards.ExclusiveSound: guard forms other than literals, negation and equality evaluate by a parameter; pending operands count as failures.
- Guards.PlanBinding: edge identifiers stand for whole edges, and the work charged for each pair is left out.
- StructureAnalysis.Analyze: the list of ready definitions starts in an arbitrary order. That every definition is reached from the root is what `VerifyStructure` establishes first; that every loop allows at least one iteration comes from the wire format.
- Packages.PackageVisitor.Visit and Modules.Traversal.Visit: saturating additions are plain ones, since configured depths are at most 128. Package names, digests, module headers and lexing are not modelled; a module that does not parse is one that is missing.
- SchemaResources.AddAnchors: the spelling of anchors and keywords that are not text are left out.
- SchemaResources.New: the same, and the resolver of `$id` values is a parameter that includes dropping an empty fragment and requiring an absolute URI. Reference resolution by fragment is left out.
- Parsers.Parser.PrimaryExpr: has no floating literals.
- Documents.Document: descriptor and evidence documents that are copied along with a binding are left out.
- Linkage.Expressions: function names, arity and template arguments are not modelled.
- Linkage.VerifyLinks: interfaces, function arities, template arguments, schema documents and policies are not modelled.
- Linkage.DocumentLinks: assumes that every mention within reach of the root resolves in the pool, and takes from content-derived identities that no record mentions itself and that no identity names records of two kinds.
- Join.Compose: the spelling of identifiers, the work and size limits, revalidation of the operands and the merging of their tables are left out. Texts are ordered by characters, which agrees with the byte order of identifiers.
- JoinGraph.JoinGraphs: checks the composed scope itself; type compatibility along join edges is left to the compatibility modules.
- Type declarations, statements of the source language, runtime, storage and transport: these would add members of the same kinds or are input and output.
