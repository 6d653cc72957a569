/**
 How complete the RDFS closure is against the six rules of RDF 1.1 Semantics, section 9.2.1.

 The code reads schema statements between named nodes only, and its domain and range rules skip
 rdf:type. Which schemas lose nothing by that can be read off the schema: CompleteForAllDataExactly.
 */
module RdfsCompleteness {
  import opened Terms
  import opened Rdfs

  /** The six rules for any terms, named or blank, and for rdf:type like any other property, wherever the
      conclusion is an RDF triple. */
  function FullConclusions(a: Triple, b: Triple): set<Triple> {
    (if a.p == Iri(SUBPROPERTY) && b.p == Iri(SUBPROPERTY) && a.o == b.s then {Triple(a.s, Iri(SUBPROPERTY), b.o)} else {})
    + (if a.p == Iri(SUBPROPERTY) && b.p == a.s && a.o.Iri? then {Triple(b.s, a.o, b.o)} else {})
    + (if a.p == Iri(SUBCLASS) && b.p == Iri(SUBCLASS) && a.o == b.s then {Triple(a.s, Iri(SUBCLASS), b.o)} else {})
    + (if a.p == Iri(SUBCLASS) && b.p == Iri(RDF_TYPE) && b.o == a.s then {Triple(b.s, Iri(RDF_TYPE), a.o)} else {})
    + (if a.p == Iri(DOMAIN) && b.p == a.s then {Triple(b.s, Iri(RDF_TYPE), a.o)} else {})
    + (if a.p == Iri(RANGE) && b.p == a.s && !b.o.Lit? then {Triple(b.o, Iri(RDF_TYPE), a.o)} else {})
  }

  predicate FullyClosed(ts: set<Triple>) {
    forall a, b :: a in ts && b in ts ==> FullConclusions(a, b) <= ts
  }

  lemma CodedRulesAreRules(a: Triple, b: Triple)
    ensures Conclusions(a, b) <= FullConclusions(a, b)
  {
  }

  /** Soundness: everything derived holds wherever the base holds and the RDFS rules do. */
  lemma ClosureSound(base: set<Triple>, c: set<Triple>, d: set<Triple>)
    requires IsClosure(base, c) && base <= d && FullyClosed(d)
    ensures c <= d
  {
    hide Conclusions, FullConclusions;
    forall a, b | a in d && b in d ensures Conclusions(a, b) <= d {
      CodedRulesAreRules(a, b);
    }
    assert RuleClosed(d);
  }

  predicate SchemaPredicate(p: Term) {
    p == Iri(SUBCLASS) || p == Iri(SUBPROPERTY) || p == Iri(DOMAIN) || p == Iri(RANGE)
  }

  predicate InVocabulary(x: Term) {
    SchemaPredicate(x) || x == Iri(RDF_TYPE)
  }

  /** A schema statement not between two named nodes. */
  predicate Unnamed(a: Triple) {
    SchemaPredicate(a.p) && !(a.s.Iri? && a.o.Iri?)
  }

  /** Where the code looks away: schema statements with blank nodes, and domains or ranges of rdf:type. */
  predicate Overlooked(a: Triple, b: Triple) {
    || Unnamed(a)
    || (Unnamed(b) && a.p == b.p)
    || ((a.p == Iri(DOMAIN) || a.p == Iri(RANGE)) && a.s == Iri(RDF_TYPE) && b.p == Iri(RDF_TYPE))
  }

  lemma CodedRulesSuffice(a: Triple, b: Triple)
    requires !Overlooked(a, b)
    ensures FullConclusions(a, b) == Conclusions(a, b)
  {
    VocabularyDistinct();
    TypeIsNotSchema();
  }

  /** Only overlooked pairs can keep a closure from being complete. */
  lemma OverlookedDecide(base: set<Triple>, c: set<Triple>)
    requires IsClosure(base, c)
    requires forall a, b :: a in c && b in c && Overlooked(a, b) ==> FullConclusions(a, b) <= c
    ensures FullyClosed(c)
  {
    hide Conclusions, FullConclusions, Overlooked;
    forall a, b | a in c && b in c && !Overlooked(a, b) ensures FullConclusions(a, b) <= c {
      assert Conclusions(a, b) <= c;
      CodedRulesSuffice(a, b);
    }
  }

  // ----- schemas -----

  /** A schema statement that says nothing about the vocabulary, except perhaps a domain or a range of
      rdf:type. */
  predicate SchemaStatement(t: Triple) {
    && SchemaPredicate(t.p) && !t.s.Lit? && !InVocabulary(t.o)
    && (InVocabulary(t.s) ==> t.s == Iri(RDF_TYPE) && (t.p == Iri(DOMAIN) || t.p == Iri(RANGE)))
  }

  predicate IsSchema(s: set<Triple>) {
    forall t :: t in s ==> SchemaStatement(t)
  }

  /** Any triples at all whose predicates are not schema predicates. */
  predicate IsData(d: set<Triple>) {
    forall t :: t in d ==> !t.s.Lit? && t.p.Iri? && !SchemaPredicate(t.p)
  }

  /** A sub-property statement of s between named properties. */
  predicate Link(s: set<Triple>, x: Term, y: Term) {
    x.Iri? && y.Iri? && Triple(x, Iri(SUBPROPERTY), y) in s
  }

  /** From x to z in n links. */
  ghost predicate ReachesIn(s: set<Triple>, x: Term, z: Term, n: nat)
    decreases n
  {
    if n <= 1 then Link(s, x, z) else exists y :: Link(s, x, y) && ReachesIn(s, y, z, n - 1)
  }

  ghost predicate Reaches(s: set<Triple>, x: Term, z: Term) {
    exists n: nat :: ReachesIn(s, x, z, n)
  }

  /** Losing nothing, statement by statement: a domain or range is not of rdf:type, and names its class
      if it names its property; a sub-class edge with a blank end is a loop; a sub-property edge with a
      blank end has its compositions stated, or reached through named properties. */
  ghost predicate Inert(s: set<Triple>, a: Triple) {
    && (a.p == Iri(DOMAIN) || a.p == Iri(RANGE) ==> a.s != Iri(RDF_TYPE) && (a.s.Iri? ==> a.o.Iri?))
    && (a.p == Iri(SUBCLASS) && Unnamed(a) ==> a.s == a.o)
    && (a.p == Iri(SUBPROPERTY) ==> forall b :: b in s && Composes(a, b) ==> Composed(s, a, b))
  }

  predicate Composes(a: Triple, b: Triple) {
    a.p == Iri(SUBPROPERTY) && b.p == Iri(SUBPROPERTY) && a.o == b.s && (Unnamed(a) || Unnamed(b))
  }

  ghost predicate Composed(s: set<Triple>, a: Triple, b: Triple) {
    Triple(a.s, Iri(SUBPROPERTY), b.o) in s || Reaches(s, a.s, b.o)
  }

  ghost predicate AllInert(s: set<Triple>) {
    forall a :: a in s ==> Inert(s, a)
  }

  ghost predicate CompleteForAllData(s: set<Triple>) {
    forall d, c: set<Triple> :: IsData(d) && IsClosure(s + d, c) ==> FullyClosed(c)
  }

  // ----- what the closure's schema is -----

  /** The schema triples of a closure come from the schema alone, and the unnamed ones were stated. */
  ghost predicate FromSchema(s: set<Triple>, u: Triple) {
    && !u.s.Lit? && u.p.Iri?
    && (SchemaPredicate(u.p) ==>
          && SchemaStatement(u)
          && (u in s || (u.p == Iri(SUBCLASS) && !Unnamed(u)) || (u.p == Iri(SUBPROPERTY) && Reaches(s, u.s, u.o))))
  }

  ghost function FromSchemaOf(s: set<Triple>): Triple -> bool {
    (u: Triple) => FromSchema(s, u)
  }

  lemma OneLink(s: set<Triple>, u: Triple)
    requires u in s && u.p == Iri(SUBPROPERTY) && u.s.Iri? && u.o.Iri?
    ensures Reaches(s, u.s, u.o)
  {
    assert u == Triple(u.s, Iri(SUBPROPERTY), u.o);
    assert ReachesIn(s, u.s, u.o, 1);
  }

  lemma {:induction false} ReachesOn(s: set<Triple>, x: Term, y: Term, z: Term, n: nat)
    requires ReachesIn(s, x, y, n) && Reaches(s, y, z)
    ensures Reaches(s, x, z)
    decreases n
  {
    var v := y;
    if n > 1 {
      v :| Link(s, x, v) && ReachesIn(s, v, y, n - 1);
      ReachesOn(s, v, y, z, n - 1);
    }
    var m: nat :| ReachesIn(s, v, z, m);
    assert ReachesIn(s, x, z, if m == 0 then 2 else m + 1);
  }

  lemma ReachesCompose(s: set<Triple>, x: Term, y: Term, z: Term)
    requires Reaches(s, x, y) && Reaches(s, y, z)
    ensures Reaches(s, x, z)
  {
    var n: nat :| ReachesIn(s, x, y, n);
    ReachesOn(s, x, y, z, n);
  }

  lemma {:induction false} ReachesInNames(s: set<Triple>, x: Term, z: Term, n: nat)
    requires ReachesIn(s, x, z, n)
    ensures x.Iri? && z.Iri?
    decreases n
  {
    if n > 1 {
      var y :| Link(s, x, y) && ReachesIn(s, y, z, n - 1);
      ReachesInNames(s, y, z, n - 1);
    }
  }

  lemma ReachesNames(s: set<Triple>, x: Term, z: Term)
    requires Reaches(s, x, z)
    ensures x.Iri? && z.Iri?
  {
    var n: nat :| ReachesIn(s, x, z, n);
    ReachesInNames(s, x, z, n);
  }

  lemma FromSchemaKept(s: set<Triple>, a: Triple, b: Triple, t: Triple)
    requires FromSchema(s, a) && FromSchema(s, b) && t in Conclusions(a, b)
    ensures FromSchema(s, t)
  {
    hide Reaches;
    VocabularyDistinct();
    TypeIsNotSchema();
    if Schematic(a, SUBPROPERTY) && Schematic(b, SUBPROPERTY) && a.o == b.s {
      if a in s { OneLink(s, a); }
      if b in s { OneLink(s, b); }
      ReachesCompose(s, a.s, a.o, b.o);
    }
  }

  lemma ClosureFromSchema(s: set<Triple>, d: set<Triple>, c: set<Triple>)
    requires IsSchema(s) && IsData(d) && IsClosure(s + d, c)
    ensures forall u :: u in c ==> FromSchema(s, u)
  {
    hide Conclusions, RuleClosed;
    forall a, b, t | FromSchemaOf(s)(a) && FromSchemaOf(s)(b) && t in Conclusions(a, b) ensures FromSchemaOf(s)(t) {
      FromSchemaKept(s, a, b, t);
    }
    ClosureKeeps(s + d, c, FromSchemaOf(s));
    assert forall u :: u in c ==> FromSchemaOf(s)(u);
  }

  // ----- inert schemas lose nothing -----

  lemma Transits(c: set<Triple>, x: Term, y: Term, z: Term)
    requires RuleClosed(c) && x.Iri? && y.Iri? && z.Iri?
    requires Triple(x, Iri(SUBPROPERTY), y) in c && Triple(y, Iri(SUBPROPERTY), z) in c
    ensures Triple(x, Iri(SUBPROPERTY), z) in c
  {
    var a, b := Triple(x, Iri(SUBPROPERTY), y), Triple(y, Iri(SUBPROPERTY), z);
    assert Triple(x, Iri(SUBPROPERTY), z) in Conclusions(a, b);
    assert Conclusions(a, b) <= c;
  }

  lemma {:induction false} ReachesDerived(s: set<Triple>, c: set<Triple>, x: Term, z: Term, n: nat)
    requires s <= c && RuleClosed(c) && ReachesIn(s, x, z, n)
    ensures Triple(x, Iri(SUBPROPERTY), z) in c
    decreases n
  {
    hide RuleClosed;
    if n > 1 {
      var y :| Link(s, x, y) && ReachesIn(s, y, z, n - 1);
      ReachesInNames(s, y, z, n - 1);
      ReachesDerived(s, c, y, z, n - 1);
      Transits(c, x, y, z);
    }
  }

  lemma ComposesTo(s: set<Triple>, x: Term, y: Term, z: Term)
    requires AllInert(s) && Triple(x, Iri(SUBPROPERTY), y) in s && Triple(y, Iri(SUBPROPERTY), z) in s
    requires !x.Iri? || !z.Iri?
    ensures Triple(x, Iri(SUBPROPERTY), z) in s
  {
    hide Reaches;
    var a, b := Triple(x, Iri(SUBPROPERTY), y), Triple(y, Iri(SUBPROPERTY), z);
    assert Composes(a, b) && Inert(s, a) && Composed(s, a, b);
    if Reaches(s, x, z) { ReachesNames(s, x, z); }
  }

  /** A blank property below a named one is below all that one reaches. */
  lemma {:induction false} BlankBelow(s: set<Triple>, x: Term, y: Term, z: Term, n: nat)
    requires AllInert(s) && !x.Iri? && Triple(x, Iri(SUBPROPERTY), y) in s && ReachesIn(s, y, z, n)
    ensures Triple(x, Iri(SUBPROPERTY), z) in s
    decreases n
  {
    hide AllInert;
    if n > 1 {
      var v :| Link(s, y, v) && ReachesIn(s, v, z, n - 1);
      ComposesTo(s, x, y, v);
      BlankBelow(s, x, v, z, n - 1);
    } else {
      ComposesTo(s, x, y, z);
    }
  }

  /** What reaches a named property is below every blank one that it is below. */
  lemma {:induction false} BelowBlank(s: set<Triple>, x: Term, y: Term, z: Term, n: nat)
    requires AllInert(s) && !z.Iri? && ReachesIn(s, x, y, n) && Triple(y, Iri(SUBPROPERTY), z) in s
    ensures Triple(x, Iri(SUBPROPERTY), z) in s
    decreases n
  {
    hide AllInert;
    if n > 1 {
      var v :| Link(s, x, v) && ReachesIn(s, v, y, n - 1);
      BelowBlank(s, v, y, z, n - 1);
      ComposesTo(s, x, v, z);
    } else {
      ComposesTo(s, x, y, z);
    }
  }

  lemma SubPropertyFromSchema(s: set<Triple>, u: Triple) returns (n: nat)
    requires FromSchema(s, u) && u.p == Iri(SUBPROPERTY) && u !in s
    ensures ReachesIn(s, u.s, u.o, n) && u.s.Iri? && u.o.Iri?
  {
    VocabularyDistinct();
    ReachesNames(s, u.s, u.o);
    n :| ReachesIn(s, u.s, u.o, n);
  }

  lemma UnnamedComposed(s: set<Triple>, c: set<Triple>, a: Triple, b: Triple)
    requires AllInert(s) && s <= c && RuleClosed(c) && Composes(a, b)
    requires FromSchema(s, a) && FromSchema(s, b)
    ensures Triple(a.s, Iri(SUBPROPERTY), b.o) in c
  {
    hide RuleClosed, FromSchema, AllInert;
    assert a == Triple(a.s, Iri(SUBPROPERTY), a.o) && b == Triple(b.s, Iri(SUBPROPERTY), b.o);
    if a !in s {
      var n := SubPropertyFromSchema(s, a);
      if b !in s { var _ := SubPropertyFromSchema(s, b); }
      BelowBlank(s, a.s, a.o, b.o, n);
    } else if b !in s {
      var n := SubPropertyFromSchema(s, b);
      BlankBelow(s, a.s, b.s, b.o, n);
    } else {
      StatedComposition(s, c, a, b);
    }
  }

  lemma StatedComposition(s: set<Triple>, c: set<Triple>, a: Triple, b: Triple)
    requires AllInert(s) && s <= c && RuleClosed(c) && Composes(a, b) && a in s && b in s
    ensures Triple(a.s, Iri(SUBPROPERTY), b.o) in c
  {
    hide RuleClosed;
    assert Inert(s, a) && Composed(s, a, b);
    if Reaches(s, a.s, b.o) {
      var n: nat :| ReachesIn(s, a.s, b.o, n);
      ReachesDerived(s, c, a.s, b.o, n);
    }
  }

  lemma OverlookedHarmless(s: set<Triple>, c: set<Triple>, a: Triple, b: Triple)
    requires AllInert(s) && s <= c && RuleClosed(c) && a in c && b in c && Overlooked(a, b)
    requires FromSchema(s, a) && FromSchema(s, b)
    ensures FullConclusions(a, b) <= c
  {
    hide RuleClosed, Reaches;
    VocabularyDistinct();
    TypeIsNotSchema();
    if Composes(a, b) { UnnamedComposed(s, c, a, b); }
    if a in s { assert Inert(s, a); }
    if b in s { assert Inert(s, b); }
    assert a == Triple(a.s, a.p, a.o) && b == Triple(b.s, b.p, b.o);
  }

  /** Over an inert schema the closure is complete, whatever the data. */
  lemma InertIsComplete(s: set<Triple>, d: set<Triple>, c: set<Triple>)
    requires IsSchema(s) && AllInert(s) && IsData(d) && IsClosure(s + d, c)
    ensures FullyClosed(c)
  {
    ClosureFromSchema(s, d, c);
    hide FullConclusions, Overlooked, FromSchema, RuleClosed, AllInert;
    forall a, b | a in c && b in c && Overlooked(a, b) ensures FullConclusions(a, b) <= c {
      OverlookedHarmless(s, c, a, b);
    }
    OverlookedDecide(s + d, c);
  }

  // ----- and only those -----

  /** No type but named ones appears unless the data states it. */
  predicate TypesNamed(u: Triple) {
    && (SchemaPredicate(u.p) ==> SchemaStatement(u))
    && (u.p == Iri(RDF_TYPE) ==> u.o.Iri?)
  }

  lemma TypesNamedKept(a: Triple, b: Triple, t: Triple)
    requires TypesNamed(a) && TypesNamed(b) && t in Conclusions(a, b)
    ensures TypesNamed(t)
  {
    VocabularyDistinct();
    TypeIsNotSchema();
  }

  lemma UnnamedTypesMissing(s: set<Triple>, d: set<Triple>, c: set<Triple>)
    requires IsSchema(s) && IsClosure(s + d, c) && forall t :: t in d ==> TypesNamed(t)
    ensures forall u :: u in c ==> TypesNamed(u)
  {
    hide Conclusions, RuleClosed;
    TypeIsNotSchema();
    forall t | t in s ensures TypesNamed(t) {}
    hide TypesNamed;
    forall a, b, t | TypesNamed(a) && TypesNamed(b) && t in Conclusions(a, b) ensures TypesNamed(t) {
      TypesNamedKept(a, b, t);
    }
    ClosureKeeps(s + d, c, (u: Triple) => TypesNamed(u));
  }

  /** One type statement with a blank class concludes nothing. */
  predicate OnlyType(t: Triple, u: Triple) {
    if SchemaPredicate(u.p) then SchemaStatement(u) else u == t
  }

  lemma OnlyTypeKept(t: Triple, a: Triple, b: Triple, u: Triple)
    requires t.p == Iri(RDF_TYPE) && t.o.BNode?
    requires OnlyType(t, a) && OnlyType(t, b) && u in Conclusions(a, b)
    ensures OnlyType(t, u)
  {
    VocabularyDistinct();
    TypeIsNotSchema();
  }

  lemma OtherTypesMissing(s: set<Triple>, t: Triple, c: set<Triple>)
    requires IsSchema(s) && t.p == Iri(RDF_TYPE) && t.o.BNode? && IsClosure(s + {t}, c)
    ensures forall u :: u in c ==> OnlyType(t, u)
  {
    hide Conclusions, RuleClosed;
    TypeIsNotSchema();
    forall u | u in s + {t} ensures OnlyType(t, u) {}
    hide OnlyType;
    forall a, b, u | OnlyType(t, a) && OnlyType(t, b) && u in Conclusions(a, b) ensures OnlyType(t, u) {
      OnlyTypeKept(t, a, b, u);
    }
    ClosureKeeps(s + {t}, c, (u: Triple) => OnlyType(t, u));
  }

  /** The closure a complete schema would have over one data triple. */
  lemma CompleteClosure(s: set<Triple>, d: set<Triple>) returns (c: set<Triple>)
    requires IsSchema(s) && IsData(d) && CompleteForAllData(s)
    ensures IsClosure(s + d, c) && FullyClosed(c)
  {
    hide SchemaPredicate, FullyClosed;
    SchemaProper(s);
    c := ClosureExists(s + d);
  }

  lemma SchemaProper(s: set<Triple>)
    requires IsSchema(s)
    ensures Proper(s)
  {
  }

  /** A named property with a blank class as its domain or range: one statement of it shows the loss. */
  lemma BlankClassOfNamedPropertyShows(s: set<Triple>, a: Triple)
    requires IsSchema(s) && CompleteForAllData(s) && a in s
    requires (a.p == Iri(DOMAIN) || a.p == Iri(RANGE)) && a.s.Iri? && a.s != Iri(RDF_TYPE)
    ensures a.o.Iri?
  {
    TypeIsNotSchema();
    assert SchemaStatement(a);
    var b := Triple(BNode("x"), a.s, BNode("y"));
    var c := CompleteClosure(s, {b});
    assert TypesNamed(b);
    UnnamedTypesMissing(s, {b}, c);
    hide RuleClosed;
    assert FullConclusions(a, b) <= c;
    var t := if a.p == Iri(DOMAIN) then Triple(b.s, Iri(RDF_TYPE), a.o) else Triple(b.o, Iri(RDF_TYPE), a.o);
    assert t in FullConclusions(a, b);
    assert TypesNamed(t);
  }

  function OtherBlank(x: Term): Term {
    if x == BNode("x") then BNode("y") else BNode("x")
  }

  /** A domain or range of rdf:type: one member of a blank class shows the loss. */
  lemma TypeDescribedShows(s: set<Triple>, a: Triple)
    requires IsSchema(s) && CompleteForAllData(s) && a in s
    requires a.p == Iri(DOMAIN) || a.p == Iri(RANGE)
    ensures a.s != Iri(RDF_TYPE)
  {
    TypeIsNotSchema();
    assert "x"[0] != "y"[0];
    var k := OtherBlank(a.o);
    var b := Triple(Iri(""), Iri(RDF_TYPE), k);
    var c := CompleteClosure(s, {b});
    OtherTypesMissing(s, b, c);
    hide RuleClosed;
    assert FullConclusions(a, b) <= c;
    var t := if a.p == Iri(DOMAIN) then Triple(b.s, Iri(RDF_TYPE), a.o) else Triple(b.o, Iri(RDF_TYPE), a.o);
    assert !OnlyType(b, t);
    assert a.s == Iri(RDF_TYPE) ==> t in FullConclusions(a, b);
  }

  /** A sub-class edge with a blank end: one member of the lower class shows the loss. */
  lemma NamedClassEdgeShows(s: set<Triple>, a: Triple)
    requires IsSchema(s) && CompleteForAllData(s) && a in s && a.p == Iri(SUBCLASS) && a.s.Iri?
    ensures a.o.Iri?
  {
    TypeIsNotSchema();
    VocabularyDistinct();
    var b := Triple(Iri(""), Iri(RDF_TYPE), a.s);
    var c := CompleteClosure(s, {b});
    assert TypesNamed(b);
    UnnamedTypesMissing(s, {b}, c);
    hide RuleClosed;
    assert FullConclusions(a, b) <= c;
    var t := Triple(b.s, Iri(RDF_TYPE), a.o);
    assert t in FullConclusions(a, b);
    assert TypesNamed(t);
  }

  lemma BlankClassEdgeShows(s: set<Triple>, a: Triple)
    requires IsSchema(s) && CompleteForAllData(s) && a in s && a.p == Iri(SUBCLASS) && a.s.BNode?
    ensures a.s == a.o
  {
    TypeIsNotSchema();
    VocabularyDistinct();
    var b := Triple(Iri(""), Iri(RDF_TYPE), a.s);
    var c := CompleteClosure(s, {b});
    OtherTypesMissing(s, b, c);
    hide RuleClosed;
    assert FullConclusions(a, b) <= c;
    var t := Triple(b.s, Iri(RDF_TYPE), a.o);
    assert t in FullConclusions(a, b);
    assert OnlyType(b, t);
  }

  /** The schema alone shows a missing composition of sub-property edges. */
  lemma MissingCompositionShows(s: set<Triple>, a: Triple, b: Triple)
    requires IsSchema(s) && CompleteForAllData(s) && a in s && b in s && Composes(a, b)
    ensures Composed(s, a, b)
  {
    VocabularyDistinct();
    var c := CompleteClosure(s, {});
    ClosureFromSchema(s, {}, c);
    hide RuleClosed;
    assert s + {} == s;
    assert FullConclusions(a, b) <= c;
    var t := Triple(a.s, Iri(SUBPROPERTY), b.o);
    assert t in FullConclusions(a, b);
    assert FromSchema(s, t);
  }

  /** The exact condition, on the schema: the closure is complete over all data exactly when every schema
      statement is inert. */
  lemma CompleteForAllDataExactly(s: set<Triple>)
    requires IsSchema(s)
    ensures CompleteForAllData(s) <==> AllInert(s)
  {
    hide FullyClosed, IsSchema, IsData, Unnamed, Composes, Composed, RuleClosed;
    if AllInert(s) {
      forall d, c: set<Triple> | IsData(d) && IsClosure(s + d, c) ensures FullyClosed(c) {
        InertIsComplete(s, d, c);
      }
    }
    if CompleteForAllData(s) {
      forall a | a in s ensures Inert(s, a) {
        StatementInert(s, a);
      }
    }
  }

  lemma SubjectsAreNodes(s: set<Triple>, a: Triple)
    requires IsSchema(s) && a in s
    ensures !a.s.Lit?
  {
  }

  lemma StatementInert(s: set<Triple>, a: Triple)
    requires IsSchema(s) && CompleteForAllData(s) && a in s
    ensures Inert(s, a)
  {
    hide CompleteForAllData, IsSchema, Composes, Composed;
    if a.p == Iri(DOMAIN) || a.p == Iri(RANGE) {
      TypeDescribedShows(s, a);
      if a.s.Iri? { BlankClassOfNamedPropertyShows(s, a); }
    }
    if a.p == Iri(SUBCLASS) {
      if a.s.Iri? { NamedClassEdgeShows(s, a); }
      if a.s.BNode? { BlankClassEdgeShows(s, a); }
      SubjectsAreNodes(s, a);
    }
    forall b | b in s && Composes(a, b) ensures Composed(s, a, b) { MissingCompositionShows(s, a, b); }
  }

  // ----- instances -----

  function SchemaPart(base: set<Triple>): set<Triple> {
    set t | t in base && SchemaPredicate(t.p)
  }

  /** So for one base: if its schema says nothing about the vocabulary and is inert, its closure is
      complete, whatever else the base says, the vocabulary included. */
  lemma CompleteWhenSchemaInert(base: set<Triple>, c: set<Triple>)
    requires IsClosure(base, c) && Proper(base)
    requires IsSchema(SchemaPart(base)) && AllInert(SchemaPart(base))
    ensures FullyClosed(c)
  {
    var s := SchemaPart(base);
    assert s + (base - s) == base;
    hide RuleClosed, AllInert, FullyClosed;
    InertIsComplete(s, base - s, c);
  }

  /** A schema between named nodes that says nothing about the vocabulary is inert. */
  lemma NamedSchemaIsInert(s: set<Triple>)
    requires IsSchema(s) && forall t :: t in s ==> !Unnamed(t) && t.s != Iri(RDF_TYPE)
    ensures AllInert(s)
  {
  }

  /** The failing half on one graph: give rdf:type a domain, and its users' types are not concluded. */
  lemma TypeDomainMissed(x: Term, k: string, d: string)
    requires !x.Lit? && k != d && d != RDF_TYPE && x != Iri(RDF_TYPE) && x != Iri(k)
    ensures var base := {Triple(Iri(RDF_TYPE), Iri(DOMAIN), Iri(k)), Triple(x, Iri(RDF_TYPE), Iri(d))};
      IsClosure(base, base) && !FullyClosed(base)
  {
    var a, b := Triple(Iri(RDF_TYPE), Iri(DOMAIN), Iri(k)), Triple(x, Iri(RDF_TYPE), Iri(d));
    var base := {a, b};
    TypeIsNotSchema();
    assert Conclusions(a, a) == {} && Conclusions(a, b) == {} && Conclusions(b, a) == {} && Conclusions(b, b) == {};
    assert RuleClosed(base);
    assert Triple(x, Iri(RDF_TYPE), Iri(k)) in FullConclusions(a, b);
  }

  /** And with a blank class: its member is not put into the class above it. */
  lemma BlankClassMissed(x: Term, c: string, d: string)
    requires !x.Lit?
    ensures var base := {Triple(BNode(c), Iri(SUBCLASS), Iri(d)), Triple(x, Iri(RDF_TYPE), BNode(c))};
      IsClosure(base, base) && !FullyClosed(base)
  {
    var a, b := Triple(BNode(c), Iri(SUBCLASS), Iri(d)), Triple(x, Iri(RDF_TYPE), BNode(c));
    var base := {a, b};
    TypeIsNotSchema();
    assert Conclusions(a, a) == {} && Conclusions(a, b) == {} && Conclusions(b, a) == {} && Conclusions(b, b) == {};
    assert RuleClosed(base);
    assert Triple(x, Iri(RDF_TYPE), Iri(d)) in FullConclusions(a, b);
  }
}
