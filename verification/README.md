# A verified model of the pgRDF engine's algorithms

pgRDF stores RDF in PostgreSQL tables: a dictionary that gives every term an id, and a table of quads of
ids. Around those tables sit a handful of algorithms that make strong promises. This project models them
in Dafny and proves what they promise, from the code as written:

* **Blank-node identity.** RDFC-1.0 canonicalization (issuers, first-degree hashes, the pruned and
  budgeted N-degree search), the component-wise graph difference, and the first-degree digest.
* **Property paths.** The compiler that folds a path expression into a plan, the breadth-first walk behind
  `+` and `*`, and the pushdown of a bound endpoint into that walk.
* **RDFS materialization.** The fixpoint of six rules, and the wipe-read-close-write cycle around it.
* **The shared dictionary cache.** Generation-stamped open addressing, and the publication of ids across
  nested, released and aborted subtransactions of many backends.
* **Ingest.** The per-term route, the deferring route, and the windowed bulk route, which must agree.
* Two smaller pieces: the digest cached under a graph lock, and the N-Triples export against the line
  recogniser that picks a parser.

SHA-256 is an arbitrary function `sha: string -> string`. Nothing is assumed of it, except that two
components under comparison do not collide where a theorem says `NoCollision`, and, where a theorem says what
hashes tell apart, that the hash is one to one and written in hexadecimal (`IdealHash`). Strings are sequences
of characters ordered character by character.

## How the parts fit

`Sequences`, `Text`, `Relations` hold general facts. `Terms` and `Isomorphism` define terms, the printed
form and graph isomorphism, and `NTriplesReader` reads the printed form back by the N-Triples grammar.
`Issuing`, `CanonicalForm` and `CanonicalDigest` say what canonicalization computes; `Canonicalizer` is the
imperative code proved equal to it. `Invariance`, `TieInvariance` and `CanonicalInvariance` prove that
relabelling and reordering do not matter. `RelatedHashes` and `SearchReach` say what its hashes tell apart
and where its search goes, `CanonicalReading` what its document says, and `PairedTies`, `TieExamples` and
`ChainExample` exhibit tied graphs it decides. `Components`, `UnionFind`, `GraphDiff`, `ComponentDiff` and
`EmptyDiff` are the difference. `Fd1` is the first-degree digest, `Fd1Meaning` what it distinguishes.
`PathCompiler`, `PathWalk` and `PathRendering` are property paths. `Rdfs`, `RdfsCompleteness`, `BaseReading` and `Materialize` are inference. `Dictionary`, `Ingest` and
`WindowedIngest` are the write paths, `DictCache` and `CacheHistory` the shared cache, `LockedDigest`,
`Sniffer` and `LineTokens` the smaller pieces. Code that updates state is a class or a method with loops,
proved against a function or a predicate; long Rust functions are split into several methods.

## Where a stated claim does not hold as stated

Each of these has a lemma with a concrete input and the condition under which the claim does hold: the exact
one, except for the invariance of digests, where it is a sufficient one and no failing input is known.

* "The diff is empty iff the graphs are isomorphic" (`src/storage/diff.rs:19`). Empty always implies
  isomorphic. The converse fails when a blank-node triple is stored twice, because the quad table has no
  uniqueness constraint (`sql/schema_v0_2_0.sql:24-30`) and components are compared as bags. It also fails
  when a ground triple is stored under other ids on the other side: a plain literal here and the same
  literal with an explicit `xsd:string` there, or two dictionary rows with one key. Nothing else makes it
  fail: against an isomorphic graph free of repetition, the difference is empty exactly when there is no
  repetition here either and the two sets of ground id triples are the same (`DuplicatesShow`).
* Canonical digests of isomorphic components are shown equal whenever the N-degree search decides every tie
  (`Decided`, which holds when there are no ties, and for example for paired blank nodes whose partners
  differ). When equal paths leave a choice, the equality is RDFC-1.0's own theorem about automorphic blank
  nodes; it enters as the hypothesis `InvariantOn` and is discharged for decided components.
* "Strict, sound, complete RDFS" (`src/inference/reasonable.rs:396`). Sound it is. The rules read schema
  statements between named nodes only, and the domain and range rules skip `rdf:type`. For a schema that
  says nothing else about the vocabulary, the closure is complete over all data exactly when every schema
  statement is inert (`CompleteForAllDataExactly`): no domain or range of `rdf:type`, or with a blank class
  for a named property; no sub-class edge with a blank end except a loop; and every composition of
  sub-property edges through or onto a blank node already stated or derivable between names.
* Materializing twice is materializing once, dictionary and bag of quads included, when every asserted row
  can be read without drawing a random label (`Settled`). A row with a literal subject is read as another
  blank node each time (`LiteralSubjectReadAnew`); the reading depends on the labels drawn exactly when some
  row draws one (`DrawsExactly`).
* A reset of the cache while a backend has staged ids (`src/storage/shmem_cache.rs:150-162`,
  `src/storage/shmem_cache.rs:404-413`): after DROP and CREATE EXTENSION the next commit of that backend
  publishes ids that no row has. Harmless exactly when nothing is staged or waiting to be published.
* A commit publishes the rows of its transaction that were staged, not all of them: a row that a batch
  inserted is published exactly when it was also staged by the subtransaction that owns it, as the
  per-term route and the deferring route do and materialization does not (`CommitPublishesExactly`,
  `BatchRowUnpublished`).
* `put_terms_batch` keeps one row per key exactly when the missing keys of the batch are distinct; each
  caller is shown to pass distinct keys.
* The line recogniser is laxer than described (`src/storage/loader.rs:2294-2303`): it accepts `"x" @en`
  with a blank before the tag, and `_:a <p> _:b, _:c .`, because a label runs on to the next blank and
  swallows the comma. Such a line is then read by the parser that skips what it cannot read. It keeps to
  its description exactly on the lines with no blank between a literal and its tag or datatype and no
  punctuation inside a label, both of which can be read off the line (`MeetsDescriptionExactly`).
* The compiler's gate is syntactic: `(^(a|b))+` is refused although `^((a|b)+)`, which means the same, is
  accepted.

## Model

| member | source | states |
|---|---|---|
| Terms.NtEscape | src/storage/canon.rs:57-70 | the escaping loop computes the character-wise escape |
| Terms.EscapedLiteralEnds | src/storage/canon.rs:57-70 | an escaped literal followed by a quote determines the text and what follows the quote |
| Terms.TermDecodes | src/storage/canon.rs:75-90 | a printed term and the blank after it determine the RDF term, up to the plain and xsd:string forms |
| Terms.TripleDecodes | src/storage/canon.rs:92-99 | two triples print alike under two labellings exactly when the labellings make them the same RDF triple |
| Terms.TripleIsLine | src/storage/canon.rs:92-99 | every printed triple is exactly one line |
| NTriplesReader.EscapeTable | src/storage/canon.rs:57-70 | five characters are escaped, each as named, and no others |
| NTriplesReader.NtTripleReads | src/storage/canon.rs:75-99 | a printed triple reads back, by the N-Triples grammar, as the relabelled triple |
| Isomorphism.LinesDecode | src/storage/canon.rs:541-556 | equal bags of lines under two labellings are equal bags of relabelled RDF triples, both ways |
| Isomorphism.EqualLinesMeanIsomorphic | src/storage/canon.rs:541-556 | equal bags of lines give an explicit blank-node bijection that is an isomorphism, whatever the labels |
| Isomorphism.AgreeingLabelsPrintAlike | src/storage/canon.rs:541-556 | labellings that agree along an isomorphism print the same bag of lines |
| Isomorphism.BagIsGraphIsomorphism | src/storage/diff.rs:19-23 | without repeated triples, isomorphism of row bags is isomorphism of graphs |
| CanonicalForm.PermutationsExact | src/storage/canon.rs:380-395 | the generator yields exactly the arrangements of a duplicate-free group |
| CanonicalForm.PermutationsAscend | src/storage/canon.rs:380-395 | and lists them in the order of the group's members, the first changing slowest |
| CanonicalForm.NDegree | src/storage/canon.rs:279-377 | the nested search terminates because unissued blank nodes decrease, and the order it returns extends the one passed in |
| SearchReach.VisitSpells | src/storage/canon.rs:328-343 | a path spells its nodes' identifiers in order, and issues the new ones in the order they are met |
| SearchReach.SearchSettles | src/storage/canon.rs:279-377 | a finished search has identified every neighbour of its node and of every node it issued |
| RelatedHashes.FirstDegreeExactly | src/storage/canon.rs:230-245 | equal first-degree hashes are equal surroundings, ends named a and z |
| RelatedHashes.SameGroupExactly | src/storage/canon.rs:248-306 | related nodes fall under one hash exactly over the same predicate, at the same end, with the same identifier |
| TieExamples.EqualHashesShareEdge | src/storage/canon.rs:279-377 | nodes with one N-degree hash share a related edge |
| TieExamples.PredicateSettles | src/storage/canon.rs:258-263 | a tie settled by the predicates of the edges alone |
| ChainExample.SearchBelowSettles | src/storage/canon.rs:349-368 | a tie settled only by the searches one step further down |
| CanonicalForm.AbandonedVisit | src/storage/canon.rs:338-348 | a permutation abandoned while visiting could not have been chosen |
| CanonicalForm.AbandonedGossip | src/storage/canon.rs:357-367 | a permutation abandoned while recursing could not have been chosen |
| Canonicalizer.Issuer.Issue | src/storage/canon.rs:206-215 | issuing is idempotent, numbers in order of first sight, and keeps counter, map and order in step |
| Canonicalizer.Permute | src/storage/canon.rs:380-395 | the recursive loop computes the permutations in the specified order |
| Canonicalizer.IndexQuads | src/storage/canon.rs:486-493 | the index lists for each blank node the triples that mention it, twice when both ends do |
| Canonicalizer.CanonState.HashFirstDegree | src/storage/canon.rs:230-245 | computes the first-degree hash of the specification |
| Canonicalizer.CanonState.HashRelated | src/storage/canon.rs:248-275 | prefers the canonical, then the temporary identifier, then the first-degree hash |
| Canonicalizer.CanonState.ResolveOne | src/storage/canon.rs:314-374 | with pruning, the chosen path and issuer are those of the unpruned search; a group above seven is refused; refusal only for that or a nested budget |
| Canonicalizer.CanonState.HashNDegree | src/storage/canon.rs:279-377 | the budgeted, pruned search returns what the specification says, or names the budget; every search counts, never more than the unpruned ones; refused beyond depth 32 or 10000 calls; the depth guard cannot fire at 33 or fewer blank nodes |
| Canonicalizer.CanonState.ResolveTied | src/storage/canon.rs:522-539 | one tied class issues canonical identifiers in the specified order, or reports the budget |
| Canonicalizer.IssueByHash | src/storage/canon.rs:501-519 | unique hashes issue in hash order, tied classes are collected in label order |
| Canonicalizer.CanonicalizeLabeled | src/storage/canon.rs:483-557 | lines, digest and labels are those of the specification whatever order hash maps iterate in; each refusal implies a graph large enough, or more than 10000 unpruned searches; a tie-free graph is never refused |
| CanonicalDigest.CanonicalOrderComplete | src/storage/canon.rs:483-539 | every blank node is issued exactly once, so the MISSING- label is never printed |
| CanonicalDigest.CanonicalLabelsBijective | src/storage/canon.rs:483-557 | the label map is a bijection from the blank nodes onto c14n0 to c14n(n-1) |
| CanonicalDigest.EqualDocumentsMeanIsomorphic | src/storage/canon.rs:541-556 | equal canonical documents prove isomorphism, for any hash function |
| CanonicalReading.DocumentReads | src/storage/canon.rs:541-556 | the hashed text is sorted lines that read back as the input, its blank nodes renamed one to one onto c14n0 to c14n(n-1) |
| CanonicalReading.UniquesInHashOrder | src/storage/canon.rs:501-519 | blank nodes with a hash of their own are numbered first, in hash order |
| CanonicalReading.TiesInHashOrder | src/storage/canon.rs:520-539 | tied classes are resolved in hash order |
| Invariance.FirstDegreeInvariant | src/storage/canon.rs:230-245 | the first-degree hash follows every isomorphism |
| Invariance.TieFreeInvariant | src/storage/canon.rs:495-519 | without ties, relabelling and reordering leave the canonical lines alone |
| Invariance.TieFreeDocumentsDecide | src/storage/canon.rs:483-557 | for a tie-free graph, equal documents are equivalent to isomorphism |
| TieInvariance.NDegreeFollows | src/storage/canon.rs:279-377 | the N-degree search commutes with isomorphism and reordering when its choices are decisive |
| CanonicalInvariance.TieFreeDecided | src/storage/canon.rs:501-519 | a tie-free graph is decided |
| CanonicalInvariance.DecidedInvariant | src/storage/canon.rs:520-556 | a decided graph's canonical lines survive relabelling and reordering, ties included |
| CanonicalInvariance.DocumentsDecideIsomorphism | src/storage/canon.rs:483-557 | for a decided graph, equal documents are equivalent to isomorphism |
| PairedTies.PairedDecided | src/storage/canon.rs:314-374 | with a hash that does not collide, ties of paired blank nodes with distinguishable partners are decided |
| PairedTies.TiedAndDecided | src/storage/canon.rs:522-539 | a graph with a tie that the search decides |
| UnionFind.Forest.Find | src/storage/diff.rs:166-172 | path halving ends, returns the representative, and leaves every class as it was |
| UnionFind.Forest.Union | src/storage/diff.rs:194-198 | linking two roots merges exactly the two classes |
| UnionFind.ClassIsComponent | src/storage/diff.rs:164-205 | a union-find class is exactly a connected component of shared blank nodes |
| Components.ComponentIsConnected | src/storage/diff.rs:14-17 | a component is what chains of triples sharing blank nodes reach |
| Components.ComponentsSum | src/storage/diff.rs:201-205 | the components partition the blank-node rows |
| Components.GlueAll | src/storage/diff.rs:14-19 | component-wise isomorphisms glue into one of the whole |
| Components.EqualDigestsMeanIsomorphic | src/storage/diff.rs:206-217 | equal bags of component digests prove the blank-node rows isomorphic |
| Components.ComponentFollows | src/storage/diff.rs:14-19 | an isomorphism carries components onto components |
| Components.IsomorphicMeansEqualDigests | src/storage/diff.rs:206-217 | isomorphic rows have equal bags of component digests |
| GraphDiff.SplitComponents | src/storage/diff.rs:164-205 | the two passes produce exactly the connected components, each with its rows in stored order |
| GraphDiff.GraphComponents | src/storage/diff.rs:157-217 | every component with its digest and labels; refused for size exactly above the row budget |
| ComponentDiff.CompareComponents | src/storage/diff.rs:220-246 | removed, added and common, in the order the code reports them |
| ComponentDiff.RemovedIsSurplus | src/storage/diff.rs:235-241 | of each digest, what is removed is all of a but the first as many as b has |
| ComponentDiff.AddedIsSurplus | src/storage/diff.rs:235-244 | of each digest, what is added is all of b but the first as many as a has |
| ComponentDiff.ReportedInOrder | src/storage/diff.rs:226-245 | removed ascends by digest; added ascends twice, first through the digests a has |
| ComponentDiff.LeftoversAreBagDifferences | src/storage/diff.rs:219-246 | removed and added are the two bag differences of the digests |
| ComponentDiff.NothingLeftMeansEqualBags | src/storage/diff.rs:219-246 | nothing is left on either side exactly when the bags of digests are equal |
| ComponentDiff.EveryComponentAccountedFor | src/storage/diff.rs:219-246 | common plus removed is all of a, common plus added is all of b |
| GraphDiff.GraphDifference | src/storage/diff.rs:262-320 | the whole difference; it is empty exactly when the sets of ground id triples and the bags of digests agree |
| EmptyDiff.EmptyMeansIsomorphic | src/storage/diff.rs:19-23 | an empty difference proves the graphs isomorphic |
| EmptyDiff.EmptyExactly | src/storage/diff.rs:19-23 | empty exactly when the ground id triples are equal and the blank-node rows isomorphic as bags |
| EmptyDiff.EmptyIffIsomorphic | src/storage/diff.rs:19-23 | empty exactly when isomorphic, for graphs storing each RDF triple once and in one form over one row per key |
| EmptyDiff.EmptyIffIsomorphicDecided | src/storage/diff.rs:19-23 | the same without any hypothesis on the digest's invariance, for graphs whose components the search decides |
| EmptyDiff.DecidedComponentsAreInvariant | src/storage/diff.rs:206-217 | the hypothesis on digests holds for decided components |
| EmptyDiff.DuplicatesShow | src/storage/diff.rs:19-23 | against an isomorphic repetition-free graph, the difference is empty exactly when there is no repetition and the ground ids are the same |
| EmptyDiff.StoredTwiceDiffers | sql/schema_v0_2_0.sql:24-30 | one triple stored once and twice: isomorphic, difference not empty |
| EmptyDiff.TwoFormsDiffer | src/storage/diff.rs:124-136 | a plain and an xsd:string literal: isomorphic, difference not empty |
| EmptyDiff.TwoIdsDiffer | src/storage/diff.rs:124-136 | one triple under two ids of one key: the same graph, difference not empty |
| EmptyDiff.SameIdsSameTriples | src/storage/diff.rs:124-136 | equal sets of ground ids are equal sets of ground triples |
| EmptyDiff.SameTriplesSameIds | src/storage/diff.rs:124-136 | and the other way round with one row per key |
| Fd1.Fd1Invariant | src/storage/fd1.rs:94-145 | the digest survives relabelling and reordering, so unequal digests prove difference |
| Fd1Meaning.Fd1Exactly | src/storage/fd1.rs:94-145 | with a hash that does not collide, equal digests are equal bags of ground triples and equal bags of first-degree neighbourhoods, both ways |
| Fd1.CyclesCollide | src/storage/fd1.rs:31-38 | a 4-cycle and two 2-cycles have equal digests under every hash function |
| Fd1.CyclesDiffer | src/storage/fd1.rs:31-38 | and are not isomorphic |
| PathCompiler.FoldPlainPredicate | src/query/path.rs:265-281 | folds to the predicate and direction exactly when the expression is a predicate under inverses |
| PathCompiler.FlattenAlternation | src/query/path.rs:294-333 | succeeds exactly for plain arms of one direction, from either starting direction |
| PathCompiler.FoldInnerPredicates | src/query/path.rs:349-369 | what a closure may range over, with its predicate set and direction |
| PathCompiler.ClassifyPath | src/query/path.rs:376-456 | a plan exactly for the supported grammar, of the operator's kind, with exactly the path's solutions over every graph and binding; each refusal names its construct |
| PathCompiler.SupportedForms | src/query/path.rs:376-456 | p, p+, p* and p? are supported under any inverses, inside and out |
| PathCompiler.SupportedAlternations | src/query/path.rs:294-333 | so is every alternation of leaves of one direction, and +, * and ? over it |
| PathCompiler.UnsupportedForms | src/query/path.rs:376-456 | negated sets, sequences and closures of closures are not |
| PathCompiler.RefusalHasCause | src/query/path.rs:294-333 | an alternation is refused exactly for an arm that is no predicate or for two arms that disagree in direction |
| PathCompiler.IsExecutable | src/query/path.rs:476-511 | decides support without a starting direction |
| PathCompiler.InverseMovesIn | src/query/path.rs:384-388 | inverses move through +, * and ?, and cancel in pairs |
| PathCompiler.ArmsMeaning | src/query/path.rs:283-293 | an alternation of one direction is one step over the set of its predicates |
| PathCompiler.GateIsSyntactic | src/query/path.rs:349-369 | a refused path with the meaning of an accepted one |
| PathCompiler.MixedDirectionsNeedTwoFlags | src/query/path.rs:283-293 | every alternation of mixed directions has a graph over which no predicate set in one direction gives its meaning |
| Relations.PlusConverse | src/query/path.rs:340-345 | the closure of the inverse is the inverse of the closure |
| Relations.BallMeaning | src/query/walk.rs:14-22 | levels hold exactly the ends of walks of one to k edges |
| PathWalk.Expand | src/query/walk.rs:136-194 | one expansion finds the successors of every frontier entry in its own graph |
| PathWalk.Level | src/query/walk.rs:206-214 | each new pair is recorded once and forms the next frontier |
| PathWalk.WalkPaths | src/query/walk.rs:74-244 | the rows are the ends of walks of one to max_depth quads from each start, each once; refused exactly above the pair budget; truncation noted exactly when something lies beyond the cap |
| PathWalk.RowsAreJourneys | src/query/walk.rs:206-226 | quad by quad, in the path's direction and the row's graph; none when the depth is not positive |
| PathWalk.TruncatesIsJourney | src/query/walk.rs:228-240 | a cut is noted exactly when some walk leads where none of at most max_depth quads does |
| PathWalk.WalkRowsMeaning | src/query/walk.rs:24-29 | the rows are the bounded closure from each start |
| PathWalk.ExhaustedMeansNotTruncated | src/query/walk.rs:14-18 | no growth at the cap is equivalent to nothing reachable beyond it |
| PathRendering.UnseededWalk | src/query/path.rs:647-698 | unseeded, the walk is the bounded closure of the scope's step, per named graph under GRAPH ?g |
| PathRendering.SeedingPlus | src/query/path.rs:647-698 | seeding + from either end equals filtering the unseeded relation |
| PathRendering.SeedingStar | src/query/path.rs:686-695 | seeding * differs from filtering exactly by the seed's own pair, and only when the seed is no node of the scope |
| PathRendering.EachGraphIgnoresSeeds | src/query/path.rs:658-668 | under GRAPH ?g a seed changes nothing |
| PathRendering.NullSeedMatchesNothing | src/query/path.rs:649-657 | a NULL seed is no node, never unseeded |
| PathRendering.RenderedIsPath | src/query/path.rs:647-698 | an untruncated + or * between two variables is the path's SPARQL relation, zero-length pairs included |
| PathRendering.DirectRelations | src/query/path.rs:835-1023 | the relations of ? and alternations are the plan's meaning in every scope, with the pairs of bound endpoints outside GRAPH ?g |
| PathRendering.SeededTruncation | src/query/walk.rs:228-240 | a seeded walk reports a cut exactly when something the seed concerns lies beyond the cap |
| Rdfs.ReadSchema | src/inference/reasonable.rs:433-459 | the maps list exactly the schema statements between named nodes |
| Rdfs.OneRound | src/inference/reasonable.rs:432-553 | one round concludes exactly what the six rules conclude, and the validity guards skip nothing |
| Rdfs.RdfsClosure | src/inference/reasonable.rs:428-571 | terminates with the least set containing the base and closed under the rules as coded |
| Rdfs.RulesByName | src/inference/reasonable.rs:462-553 | what the closure holds, rule by rule, under the IRIs of the RDFS vocabulary |
| Rdfs.ClosureUnique | src/inference/reasonable.rs:428-571 | the result does not depend on the order of triples or rules |
| Rdfs.ClosureMonotone | src/inference/reasonable.rs:428-571 | a larger base has a larger closure |
| Rdfs.ClosureIdempotent | src/inference/reasonable.rs:428-571 | closing twice is closing once |
| Rdfs.ClosureOfPart | src/inference/reasonable.rs:134-160 | keeping some consequences in the base changes nothing |
| RdfsCompleteness.ClosureSound | src/inference/reasonable.rs:396-427 | every derived triple holds wherever base and RDFS rules hold |
| Rdfs.ClosureExists | src/inference/reasonable.rs:428-571 | every base of RDF triples has a least closed superset |
| RdfsCompleteness.CompleteForAllDataExactly | src/inference/reasonable.rs:396-427 | a schema's closures are complete over all data exactly when every schema statement is inert |
| RdfsCompleteness.CompleteWhenSchemaInert | src/inference/reasonable.rs:396-427 | complete for one base whenever its schema part is inert |
| RdfsCompleteness.TypeDomainMissed | src/inference/reasonable.rs:511-540 | a base on which skipping rdf:type loses a conclusion |
| RdfsCompleteness.BlankClassMissed | src/inference/reasonable.rs:574-588 | a base on which reading named schema nodes only loses a conclusion |
| BaseReading.LoadBase | src/inference/reasonable.rs:606-672 | reads the asserted rows one by one, whatever the tables hold |
| BaseReading.ReadRowsProper | src/inference/reasonable.rs:675-722 | what is read are RDF triples with accepted IRIs, sentinels included |
| BaseReading.StoredAreRead | src/inference/reasonable.rs:606-722 | rows that stand for parsed triples are read back as those triples, in order |
| BaseReading.PlainIsSimple | src/inference/reasonable.rs:705-720 | a literal with neither datatype nor tag is read as xsd:string |
| BaseReading.MalformedReadings | src/inference/reasonable.rs:674-722 | sentinel, random label and plain literal for what a term cannot be |
| BaseReading.DroppedExactly | src/inference/reasonable.rs:615-668 | a row drops out exactly when an id has no row or the predicate is no IRI |
| BaseReading.SettledReadAgain | src/inference/reasonable.rs:606-722 | settled rows are read alike from a larger dictionary and with other random labels |
| BaseReading.DrawsExactly | src/inference/reasonable.rs:674-705 | the reading depends on random labels exactly when some row has a literal subject or an unacceptable label |
| BaseReading.LiteralSubjectReadAnew | src/inference/reasonable.rs:675-688 | a literal subject is read as another blank node each time |
| Materialize.IndexTerms | src/inference/reasonable.rs:266-287 | each distinct key once, with positions that stand for the triples' terms |
| Materialize.InternChunks | src/inference/reasonable.rs:289-294 | chunked interning keeps one row per key, for any chunk size |
| Materialize.WriteInferred | src/inference/reasonable.rs:296-309 | the rows written decode to the inferred triples in order, for any flush size |
| Materialize.MaterializeRdfs | src/inference/reasonable.rs:113-309 | counts the inferred rows of the graph it drops; asserted rows stay, the inferred rows decode to exactly closure minus base, each once |
| Materialize.OtherRowsUntouched | src/inference/reasonable.rs:133-153 | rows that are asserted or of another graph come through in place, inferred rows of the graph do not, and the new ones stand behind |
| Materialize.BaseFromAsserted | src/inference/reasonable.rs:606-625 | the base is read from the asserted rows of the graph and from no others |
| Materialize.MaterializeTwice | src/inference/reasonable.rs:133-309 | over settled rows a second run reads the same base, infers the same triples, adds no dictionary row and leaves the same bag of quads |
| Dictionary.Store.PutTerm | src/storage/dict.rs:29-82 | returns the cached id, else that of a row with the key, adding one exactly when there was none and staging it exactly when not cached |
| Dictionary.Store.PutTermsBatch | src/storage/dict.rs:132-253 | positional ids of rows with the keys; one row per key survives exactly when the missing keys are distinct |
| Dictionary.BatchKeepsOneRow | src/storage/dict.rs:188-225 | the exact condition, for every table and batch |
| Dictionary.RepeatedKeyStoredTwice | src/storage/dict.rs:155-175 | a batch naming one new key twice stores it twice |
| Dictionary.DecodesOneTerm | src/storage/dict.rs:255-270 | an id stands for at most one term |
| Dictionary.OneIdPerTerm | src/storage/dict.rs:15-28 | with one row per key a term has at most one id |
| Ingest.IngestBaseline | src/storage/loader.rs:307-391 | the quads decode to the parsed triples in order, and only their terms are added |
| Ingest.DeferQueue.TryResolveOrDefer | src/storage/loader.rs:910-928 | afterwards the key is cached or queued, and the queue has no repetition |
| Ingest.DeferQueue.ResolveDatatype | src/storage/loader.rs:935-968 | a datatype has a row before its literal's key is formed |
| Ingest.DeferQueue.FlushDefer | src/storage/loader.rs:973-1000 | the batch has no repetition; every key known before is cached after, and every queued key is staged |
| Ingest.DeferQueue.Drain | src/storage/loader.rs:1006-1030 | no lookup can miss |
| Ingest.IngestCombined | src/storage/loader.rs:695-841 | same promise as the baseline, for every pair of batch sizes |
| Ingest.StoredExactly | src/storage/loader.rs:695-841 | after a load the dictionary holds what it held and the load's terms, nothing else |
| Ingest.RoutesAgree | src/storage/loader.rs:663-694 | two routes from one dictionary store the same terms and the same decoded quads |
| WindowedIngest.CutPoints | src/storage/loader.rs:1614-1628 | the k-th of n cuts is the first start of a line at or behind k nths of the file; they ascend from zero to the end |
| WindowedIngest.ChunksCover | src/storage/loader.rs:1628-1632 | the chunks are the file: no gap, no overlap |
| WindowedIngest.ChunksEndLines | src/storage/loader.rs:1614-1632 | no line is split between chunks |
| WindowedIngest.TermMap.Intern | src/storage/loader.rs:2070-2103 | a key gets one row with an unused id the first time it is met in any window |
| WindowedIngest.TierOne | src/storage/loader.rs:2104-2115 | after tier one every non-literal and every datatype has an id |
| WindowedIngest.TierTwo | src/storage/loader.rs:2123-2145 | after tier two every literal has an id, its datatype's row already inserted |
| WindowedIngest.IngestWindowed | src/storage/loader.rs:1917-2197 | on an empty dictionary, the same promise as the other routes, for any windows, blocks and batches |
| DictCache.Cache.Lookup | src/storage/shmem_cache.rs:286-312 | a hit is the id last put for the key in this generation; a miss means the key is not cached |
| DictCache.Cache.InsertSlot | src/storage/shmem_cache.rs:412-454 | writes the first slot of the window that is free or holds the key, else the home slot |
| DictCache.InsertIntoPuts | src/storage/shmem_cache.rs:412-454 | an insertion sets the key and loses another one exactly when the whole window is taken by others |
| DictCache.WindowOfEight | src/storage/shmem_cache.rs:286-312 | a key's window is eight different consecutive slots of 16384 |
| DictCache.EvictionFindsEight | src/storage/shmem_cache.rs:438-454 | a key is evicted only when eight other live keys fill the window |
| DictCache.Cache.Reset | src/storage/shmem_cache.rs:150-162 | one increment forgets every key |
| DictCache.WrittenWellPlaced | src/storage/shmem_cache.rs:412-454 | a key keeps at most one live slot, behind live slots of its window, through reuse and eviction |
| CacheHistory.PendingList.AbortSub | src/storage/shmem_cache.rs:393-401 | keeps exactly the pairs staged under smaller ids |
| CacheHistory.PendingList.Clear | src/storage/shmem_cache.rs:378-381 | an abort of the transaction leaves nothing staged |
| CacheHistory.PendingList.Flush | src/storage/shmem_cache.rs:404-410 | the cache becomes the old one with every pair inserted in order |
| CacheHistory.FlushGets | src/storage/shmem_cache.rs:404-454 | a staged or cached id is gone after a flush only if a later pair has its key or evicted it from a full window |
| CacheHistory.AbortSubGood | src/storage/shmem_cache.rs:382-401 | the filter drops exactly the stagings that the subtransaction's abort undoes |
| CacheHistory.RunSafe | src/storage/shmem_cache.rs:314-410 | over every interleaving of every backend's steps the cache holds only ids of committed rows |
| CacheHistory.CommitPublishesExactly | src/storage/shmem_cache.rs:362-410 | the list holds exactly the rows with a staging no abort has undone; at a commit they survive, and a row of the transaction is among them exactly when staged by its owner |
| CacheHistory.InsertionsAnnounce | src/storage/dict.rs:63-82 | the per-term route and a flushed batch stage what they insert |
| CacheHistory.AnnouncedIsPublished | src/storage/shmem_cache.rs:362-410 | over any run, a row so staged and alive ever since is on the list |
| CacheHistory.BatchRowUnpublished | src/storage/dict.rs:120-131 | a run that commits a batch-inserted row and never publishes it |
| CacheHistory.CachedUntilDisplaced | src/storage/shmem_cache.rs:404-454 | over any run, a cached id stays until a reset, an eviction or a publication of its key |
| CacheHistory.InternAgrees | src/storage/dict.rs:29-82 | interning through the cache answers as the dictionary alone, and adds a row exactly when none is visible |
| CacheHistory.RecreateSafeExactly | src/storage/shmem_cache.rs:145-162 | recreating the extension and resetting is safe exactly when nothing is staged or waiting |
| CacheHistory.RecreateThenCommitDangles | src/storage/shmem_cache.rs:404-413 | otherwise the next commit publishes an id that no row has |
| CacheHistory.DanglingIsReachable | src/storage/shmem_cache.rs:404-413 | and a run leads there |
| LockedDigest.Graph.Lock | src/storage/lock.rs:181-222 | never over a standing lock; clears the cache and installs both triggers |
| LockedDigest.TrimmedEmpty | src/storage/lock.rs:181-187 | a reason counts as empty exactly when it is white space throughout |
| LockedDigest.Graph.Unlock | src/storage/lock.rs:226-260 | leaves no lock, no trigger and no cached digest |
| LockedDigest.Graph.DropByHand | src/storage/lock.rs:127-145 | dropping a trigger ends the trust in the cache for as long as the lock stands |
| LockedDigest.Graph.GraphDigest | src/storage/canon.rs:431-466 | cached or computed, the answer is the digest of the rows as they are |
| Sniffer.ExportLines | src/storage/export.rs:98-106 | the lines of the graph in ascending order |
| Sniffer.ExportReads | src/storage/export.rs:40-106 | an exported line reads back as its triple under the stored labels |
| Sniffer.LineIsBareNTriples | src/storage/loader.rs:2304-2428 | the scanning loop ends on every line and computes the recogniser |
| Sniffer.ExportRecognised | src/storage/export.rs:40-106 | an exported line is accepted exactly when its labels have no dot, whatever its literals hold |
| LineTokens.AcceptedExactly | src/storage/loader.rs:2274-2303 | a line is accepted exactly when it is a sequence of bare terms and blanks ended by one dot, tags and datatypes only after literals |
| LineTokens.ProperIsLexical | src/storage/loader.rs:2304-2420 | the tokens of such a line, character by character |
| LineTokens.PunctuationOnlyInLabels | src/storage/loader.rs:2294-2300 | an accepted line shows punctuation exactly when a label holds it |
| LineTokens.DetachedIsSpacedMark | src/storage/loader.rs:2300-2303 | an accepted line shows a detached tag or datatype exactly when blanks separate it from its literal |
| LineTokens.MeetsDescriptionExactly | src/storage/loader.rs:2274-2303 | a line is accepted as described exactly when accepted, with no detached mark and no punctuation in a label |
| Sniffer.SpacedTagAccepted | src/storage/loader.rs:2300-2303 | a line with a blank before the language tag is accepted, against the description |
| Sniffer.ObjectListAccepted | src/storage/loader.rs:2294-2300 | a line with a comma after a label is accepted, against the description |

## Left out

- CanonicalInvariance.DecidedInvariant: assumes the search decides every tie; that equal paths of automorphic blank nodes may be resolved either way is RDFC-1.0's own theorem, taken as the hypothesis `InvariantOn`.
- EmptyDiff.EmptyIffIsomorphic: takes the invariance of component digests as a hypothesis, which EmptyIffIsomorphicDecided discharges for decided components; needs the absence of repeated rows, one stored form per ground triple, one dictionary row per key, and no SHA-256 collision among the components compared.
- Canonicalizer.CanonicalizeLabeled: a graph that needs more than 10000 unpruned searches may still be served, as pruning saves some; how many is not characterised. Path lengths are compared in characters where the code compares bytes.
- RdfsCompleteness.CompleteForAllDataExactly: schemas that say something about the vocabulary beyond a domain or range of `rdf:type`, such as a sub-property of `rdfs:subClassOf`, are outside the exact condition.
- Materialize.MaterializeTwice: assumes rows whose ids and datatypes have dictionary rows; a missing one could be filled in by the first run.
- Materialize.MaterializeRdfs: the profile check, the lock check, the statistics and the `owl-rl` profile, which calls a foreign reasoner, are not modelled.
- GraphDiff.GraphDifference: counts by predicate and class, narrowing, and paging are reporting over the same sets; rows with a literal subject and a blank object are in neither part of the code's difference, so well-formed graphs exclude them.
- WindowedIngest.IngestWindowed: parsing, the skipping of malformed lines, index dropping and rebuilding, and the fallback on a dictionary that is not empty are not modelled; a single loader draws ids.
- WindowedIngest.CutPoints: the parallel parse of the chunks and their four passes are not modelled beyond the cut; the windowed route stands for the in-memory deduplication.
- CacheHistory.RunSafe: the generation read and the slot write of one insertion are one step, the generation counter does not wrap, and fingerprints do not collide; the database id is part of the key. `insert_committed`, which only tests call, is not modelled.
- DictCache.Cache.Lookup: the unprepared state, in which every lookup misses, is not modelled.
- LockedDigest.Graph.GraphDigest: triggers disabled without being dropped, or put back by hand, and writers already running when the lock is taken are not modelled.
- PathWalk.WalkPaths: interrupts and the SQL that enumerates starts and expands frontiers are replaced by loops over the quads.
- PathRendering.RenderedIsPath: the fallback to materialized closure rows for well-known transitive predicates is in the executor, which is not part of this model.
- Oxttl and spargebra parsing, SQL planning, privileges, partitions, settings, timing, JSON output and error texts.
- Named-graph ingest (TriG, N-Quads), the two-pass batched route and the staged loader: the same interning as the routes shown.
- Construct, SHACL and graph-management functions: argument checks around single SQL statements.
