/**
 The RDFS forward chain: six rules applied in rounds until nothing new appears, and the proof that the
 result is the least set of triples that contains the base and is closed under the rules as coded.
 */
module Rdfs {
  import opened Sequences
  import opened Terms

  const RDF_TYPE := "http://www.w3.org/1999/02/22-rdf-syntax-ns#type"
  const SUBCLASS := "http://www.w3.org/2000/01/rdf-schema#subClassOf"
  const SUBPROPERTY := "http://www.w3.org/2000/01/rdf-schema#subPropertyOf"
  const DOMAIN := "http://www.w3.org/2000/01/rdf-schema#domain"
  const RANGE := "http://www.w3.org/2000/01/rdf-schema#range"

  // ----- the rules -----

  /** A schema statement between two named nodes. */
  predicate Schematic(a: Triple, p: string) {
    a.p == Iri(p) && a.s.Iri? && a.o.Iri?
  }

  /** rdfs11 and rdfs5: transitivity of p. */
  function Transitive(p: string, a: Triple, b: Triple): set<Triple> {
    if Schematic(a, p) && Schematic(b, p) && a.o == b.s then {Triple(a.s, Iri(p), b.o)} else {}
  }

  /** rdfs7: a sub-property's statements hold of the super-property. */
  function SubPropertyRule(a: Triple, b: Triple): set<Triple> {
    if Schematic(a, SUBPROPERTY) && b.p == a.s then {Triple(b.s, a.o, b.o)} else {}
  }

  /** rdfs9: a member of a class is a member of its super-classes. */
  function SubClassRule(a: Triple, b: Triple): set<Triple> {
    if Schematic(a, SUBCLASS) && b.p == Iri(RDF_TYPE) && b.o == a.s then {Triple(b.s, Iri(RDF_TYPE), a.o)} else {}
  }

  /** rdfs2, as coded: not for the predicate rdf:type. */
  function DomainRule(a: Triple, b: Triple): set<Triple> {
    if Schematic(a, DOMAIN) && b.p == a.s && b.p != Iri(RDF_TYPE) then {Triple(b.s, Iri(RDF_TYPE), a.o)} else {}
  }

  /** rdfs3, as coded: not for rdf:type, and not for literal objects. */
  function RangeRule(a: Triple, b: Triple): set<Triple> {
    if Schematic(a, RANGE) && b.p == a.s && b.p != Iri(RDF_TYPE) && !b.o.Lit? then {Triple(b.o, Iri(RDF_TYPE), a.o)} else {}
  }

  /** What a schema statement a says about a triple b. */
  function DataRules(a: Triple, b: Triple): set<Triple> {
    SubPropertyRule(a, b) + SubClassRule(a, b) + DomainRule(a, b) + RangeRule(a, b)
  }

  function Conclusions(a: Triple, b: Triple): set<Triple> {
    Transitive(SUBCLASS, a, b) + Transitive(SUBPROPERTY, a, b) + DataRules(a, b)
  }

  predicate RuleClosed(ts: set<Triple>) {
    forall a, b :: a in ts && b in ts ==> Conclusions(a, b) <= ts
  }

  /** The least closed set above the base. */
  ghost predicate IsClosure(base: set<Triple>, c: set<Triple>) {
    && base <= c && RuleClosed(c)
    && forall d: set<Triple> :: base <= d && RuleClosed(d) ==> c <= d
  }

  // ----- what any such closure satisfies -----

  /** So the result does not depend on the order in which triples or rules are tried. */
  lemma ClosureUnique(base: set<Triple>, c: set<Triple>, d: set<Triple>)
    requires IsClosure(base, c) && IsClosure(base, d)
    ensures c == d
  {
    hide RuleClosed;
    assert c <= d && d <= c;
  }

  lemma ClosureMonotone(base: set<Triple>, c: set<Triple>, more: set<Triple>, d: set<Triple>)
    requires IsClosure(base, c) && IsClosure(more, d) && base <= more
    ensures c <= d
  {
    hide RuleClosed;
  }

  lemma ClosureIdempotent(base: set<Triple>, c: set<Triple>, d: set<Triple>)
    requires IsClosure(base, c) && IsClosure(c, d)
    ensures d == c
  {
    hide RuleClosed;
    assert c <= d && d <= c;
  }

  /** Adding consequences to the base changes nothing: inferred rows may be kept or wiped first. */
  lemma ClosureOfPart(base: set<Triple>, c: set<Triple>, some: set<Triple>)
    requires IsClosure(base, c) && base <= some <= c
    ensures IsClosure(some, c)
  {
    hide RuleClosed;
  }

  // ----- reading the schema -----

  type Relation = map<string, seq<string>>

  datatype Schema = Schema(subclass: Relation, subprop: Relation, domain: Relation, range: Relation)

  function Push(m: Relation, c: string, d: string): Relation {
    m[c := (if c in m then m[c] else []) + [d]]
  }

  predicate Sends(m: Relation, c: string, d: string) {
    c in m && d in m[c]
  }

  /** m lists exactly the statements of ts with predicate p between named nodes. */
  ghost predicate Records(m: Relation, p: string, ts: set<Triple>) {
    forall c, d :: Sends(m, c, d) <==> Triple(Iri(c), Iri(p), Iri(d)) in ts
  }

  lemma PushLists(m: Relation, c: string, d: string, x: string, y: string)
    ensures Sends(Push(m, c, d), x, y) <==> Sends(m, x, y) || (x == c && y == d)
  {
  }

  lemma RecordsMore(m: Relation, p: string, ts: set<Triple>, t: Triple)
    requires Records(m, p, ts)
    ensures if Schematic(t, p) then Records(Push(m, t.s.iri, t.o.iri), p, ts + {t}) else Records(m, p, ts + {t})
  {
    hide Sends, Push;
    if Schematic(t, p) {
      forall x, y ensures Sends(Push(m, t.s.iri, t.o.iri), x, y) <==> Triple(Iri(x), Iri(p), Iri(y)) in ts + {t} {
        PushLists(m, t.s.iri, t.o.iri, x, y);
        assert t == Triple(Iri(t.s.iri), Iri(p), Iri(t.o.iri));
      }
    }
  }

  ghost predicate Reads(sc: Schema, ts: set<Triple>) {
    && Records(sc.subclass, SUBCLASS, ts) && Records(sc.subprop, SUBPROPERTY, ts)
    && Records(sc.domain, DOMAIN, ts) && Records(sc.range, RANGE, ts)
  }

  lemma VocabularyDistinct()
    ensures SUBCLASS != SUBPROPERTY && SUBCLASS != DOMAIN && SUBCLASS != RANGE
    ensures SUBPROPERTY != DOMAIN && SUBPROPERTY != RANGE && DOMAIN != RANGE
  {
    assert SUBCLASS[40] == 'C' && SUBPROPERTY[40] == 'P' && DOMAIN[37] == 'd' && RANGE[37] == 'r' && SUBCLASS[37] == 's' && SUBPROPERTY[37] == 's';
  }

  /** What a closed set holds, rule by rule and IRI by IRI (rdfs11, rdfs5, rdfs9, rdfs7, rdfs2, rdfs3). */
  lemma RulesByName(c: set<Triple>, x: Term, y: Term, i: string, j: string, k: string)
    requires RuleClosed(c)
    ensures var sub := Iri("http://www.w3.org/2000/01/rdf-schema#subClassOf");
      Triple(Iri(i), sub, Iri(j)) in c && Triple(Iri(j), sub, Iri(k)) in c ==> Triple(Iri(i), sub, Iri(k)) in c
    ensures var sub := Iri("http://www.w3.org/2000/01/rdf-schema#subPropertyOf");
      Triple(Iri(i), sub, Iri(j)) in c && Triple(Iri(j), sub, Iri(k)) in c ==> Triple(Iri(i), sub, Iri(k)) in c
    ensures var a := Iri("http://www.w3.org/1999/02/22-rdf-syntax-ns#type");
      Triple(Iri(i), Iri("http://www.w3.org/2000/01/rdf-schema#subClassOf"), Iri(j)) in c && Triple(x, a, Iri(i)) in c ==> Triple(x, a, Iri(j)) in c
    ensures Triple(Iri(i), Iri("http://www.w3.org/2000/01/rdf-schema#subPropertyOf"), Iri(j)) in c && Triple(x, Iri(i), y) in c ==> Triple(x, Iri(j), y) in c
    ensures var a := "http://www.w3.org/1999/02/22-rdf-syntax-ns#type";
      i != a && Triple(Iri(i), Iri("http://www.w3.org/2000/01/rdf-schema#domain"), Iri(j)) in c && Triple(x, Iri(i), y) in c ==> Triple(x, Iri(a), Iri(j)) in c
    ensures var a := "http://www.w3.org/1999/02/22-rdf-syntax-ns#type";
      i != a && !y.Lit? && Triple(Iri(i), Iri("http://www.w3.org/2000/01/rdf-schema#range"), Iri(j)) in c && Triple(x, Iri(i), y) in c ==> Triple(y, Iri(a), Iri(j)) in c
  {
    Concludes(c, Triple(Iri(i), Iri(SUBCLASS), Iri(j)), Triple(Iri(j), Iri(SUBCLASS), Iri(k)));
    Concludes(c, Triple(Iri(i), Iri(SUBPROPERTY), Iri(j)), Triple(Iri(j), Iri(SUBPROPERTY), Iri(k)));
    Concludes(c, Triple(Iri(i), Iri(SUBCLASS), Iri(j)), Triple(x, Iri(RDF_TYPE), Iri(i)));
    Concludes(c, Triple(Iri(i), Iri(SUBPROPERTY), Iri(j)), Triple(x, Iri(i), y));
    Concludes(c, Triple(Iri(i), Iri(DOMAIN), Iri(j)), Triple(x, Iri(i), y));
    Concludes(c, Triple(Iri(i), Iri(RANGE), Iri(j)), Triple(x, Iri(i), y));
  }

  lemma Concludes(c: set<Triple>, a: Triple, b: Triple)
    requires RuleClosed(c)
    ensures a in c && b in c ==> forall t :: t in Conclusions(a, b) ==> t in c
  {
  }

  /** The schema maps, rebuilt from the working set each round. */
  method ReadSchema(ts: set<Triple>) returns (sc: Schema)
    ensures Reads(sc, ts)
  {
    hide Records, Push;
    sc := Schema(map[], map[], map[], map[]);
    NothingRecorded();
    var rest := ts;
    ghost var done: set<Triple> := {};
    while rest != {}
      invariant rest + done == ts && rest !! done && Reads(sc, done)
      decreases rest
    {
      var t :| t in rest;
      RecordsMore(sc.subclass, SUBCLASS, done, t);
      RecordsMore(sc.subprop, SUBPROPERTY, done, t);
      RecordsMore(sc.domain, DOMAIN, done, t);
      RecordsMore(sc.range, RANGE, done, t);
      VocabularyDistinct();
      if t.p == Iri(SUBCLASS) {
        if t.s.Iri? && t.o.Iri? { sc := sc.(subclass := Push(sc.subclass, t.s.iri, t.o.iri)); }
      } else if t.p == Iri(SUBPROPERTY) {
        if t.s.Iri? && t.o.Iri? { sc := sc.(subprop := Push(sc.subprop, t.s.iri, t.o.iri)); }
      } else if t.p == Iri(DOMAIN) {
        if t.s.Iri? && t.o.Iri? { sc := sc.(domain := Push(sc.domain, t.s.iri, t.o.iri)); }
      } else if t.p == Iri(RANGE) && t.s.Iri? && t.o.Iri? {
        sc := sc.(range := Push(sc.range, t.s.iri, t.o.iri));
      }
      rest, done := rest - {t}, done + {t};
    }
    assert done == ts;
  }

  lemma NothingRecorded()
    ensures Reads(Schema(map[], map[], map[], map[]), {})
  {
  }

  // ----- one round -----

  /** The oxrdf constructor that may refuse an IRI; every IRI of the working set has passed it. */
  ghost predicate ValidIris(valid: string -> bool, ts: set<Triple>) {
    forall t :: t in ts ==> (t.s.Iri? ==> valid(t.s.iri)) && (t.p.Iri? ==> valid(t.p.iri)) && (t.o.Iri? ==> valid(t.o.iri))
  }

  lemma ListedValid(valid: string -> bool, ts: set<Triple>, m: Relation, p: string, c: string, d: string)
    requires ValidIris(valid, ts) && Records(m, p, ts) && Sends(m, c, d)
    ensures valid(c) && valid(d)
  {
    assert Triple(Iri(c), Iri(p), Iri(d)) in ts;
  }

  /** Push s p e for every listed e that is a valid IRI. */
  method PushObjects(valid: string -> bool, next: seq<Triple>, s: Term, p: string, es: seq<string>) returns (next': seq<Triple>)
    requires forall e :: e in es ==> valid(e)
    ensures Elements(next') == Elements(next) + Objects(s, p, es)
  {
    next' := next;
    for i := 0 to |es|
      invariant Elements(next') == Elements(next) + Objects(s, p, es[..i])
    {
      if valid(es[i]) {
        ElementsMore(next', Triple(s, Iri(p), Iri(es[i])));
        next' := next' + [Triple(s, Iri(p), Iri(es[i]))];
      }
      assert es[..i + 1] == es[..i] + [es[i]];
      ObjectsMore(s, p, es[..i], es[i]);
    }
    assert es[..|es|] == es;
  }

  function Objects(s: Term, p: string, es: seq<string>): set<Triple> {
    set e | e in es :: Triple(s, Iri(p), Iri(e))
  }

  lemma ObjectsMore(s: Term, p: string, es: seq<string>, e: string)
    ensures Objects(s, p, es + [e]) == Objects(s, p, es) + {Triple(s, Iri(p), Iri(e))}
  {
  }

  lemma ElementsMore(ts: seq<Triple>, t: Triple)
    ensures Elements(ts + [t]) == Elements(ts) + {t}
  {
  }

  /** Push s q o for every listed q that is a valid IRI. */
  method PushPredicates(valid: string -> bool, next: seq<Triple>, s: Term, qs: seq<string>, o: Term) returns (next': seq<Triple>)
    requires forall q :: q in qs ==> valid(q)
    ensures Elements(next') == Elements(next) + Predicates(s, qs, o)
  {
    next' := next;
    for i := 0 to |qs|
      invariant Elements(next') == Elements(next) + Predicates(s, qs[..i], o)
    {
      if valid(qs[i]) {
        ElementsMore(next', Triple(s, Iri(qs[i]), o));
        next' := next' + [Triple(s, Iri(qs[i]), o)];
      }
      assert qs[..i + 1] == qs[..i] + [qs[i]];
      PredicatesMore(s, qs[..i], o, qs[i]);
    }
    assert qs[..|qs|] == qs;
  }

  function Predicates(s: Term, qs: seq<string>, o: Term): set<Triple> {
    set q | q in qs :: Triple(s, Iri(q), o)
  }

  lemma PredicatesMore(s: Term, qs: seq<string>, o: Term, q: string)
    ensures Predicates(s, qs + [q], o) == Predicates(s, qs, o) + {Triple(s, Iri(q), o)}
  {
  }

  function At(m: Relation, c: string): seq<string> {
    if c in m then m[c] else []
  }

  /** Two steps from c through the given middle nodes. */
  function TwoSteps(m: Relation, p: string, c: string, ds: seq<string>): set<Triple> {
    set d, e | d in ds && e in At(m, d) :: Triple(Iri(c), Iri(p), Iri(e))
  }

  lemma TwoStepsMore(m: Relation, p: string, c: string, ds: seq<string>, d: string)
    ensures TwoSteps(m, p, c, ds + [d]) == TwoSteps(m, p, c, ds) + Objects(Iri(c), p, At(m, d))
  {
  }

  function TwoStepsFrom(m: Relation, p: string, cs: set<string>): set<Triple> {
    set c, d, e | c in cs && d in At(m, c) && e in At(m, d) :: Triple(Iri(c), Iri(p), Iri(e))
  }

  lemma TwoStepsFromMore(m: Relation, p: string, cs: set<string>, c: string)
    ensures TwoStepsFrom(m, p, cs + {c}) == TwoStepsFrom(m, p, cs) + TwoSteps(m, p, c, At(m, c))
  {
  }

  /** rdfs11 or rdfs5 from one named node. */
  method TransitiveFrom(valid: string -> bool, m: Relation, p: string, c: string, next: seq<Triple>, ghost ts: set<Triple>) returns (next': seq<Triple>)
    requires Records(m, p, ts) && ValidIris(valid, ts) && c in m
    ensures Elements(next') == Elements(next) + TwoSteps(m, p, c, At(m, c))
  {
    hide Records, ValidIris, Elements, TwoSteps;
    var ds := m[c];
    next' := next;
    NoTwoSteps(m, p);
    NoObjects(Iri(c), p);
    for i := 0 to |ds|
      invariant Elements(next') == Elements(next) + TwoSteps(m, p, c, ds[..i])
    {
      AllValid(valid, ts, m, p, ds[i]);
      assert Sends(m, c, ds[i]);
      ListedValid(valid, ts, m, p, c, ds[i]);
      if ds[i] in m && valid(c) {
        next' := PushObjects(valid, next', Iri(c), p, m[ds[i]]);
      }
      assert ds[..i + 1] == ds[..i] + [ds[i]];
      TwoStepsMore(m, p, c, ds[..i], ds[i]);
    }
    assert ds[..|ds|] == ds;
  }

  /** rdfs11 and rdfs5 over a schema map. */
  method TransitiveStep(valid: string -> bool, m: Relation, p: string, ghost ts: set<Triple>) returns (next: seq<Triple>)
    requires Records(m, p, ts) && ValidIris(valid, ts)
    ensures Elements(next) == TwoStepsFrom(m, p, m.Keys)
  {
    hide Records, ValidIris, Elements, TwoSteps, TwoStepsFrom;
    next := [];
    var rest := m.Keys;
    ghost var done: set<string> := {};
    NoTwoSteps(m, p);
    while rest != {}
      invariant rest + done == m.Keys && rest !! done
      invariant Elements(next) == TwoStepsFrom(m, p, done)
      decreases rest
    {
      var c :| c in rest;
      next := TransitiveFrom(valid, m, p, c, next, ts);
      TwoStepsFromMore(m, p, done, c);
      rest, done := rest - {c}, done + {c};
    }
    assert done == m.Keys;
  }

  lemma NoTwoSteps(m: Relation, p: string)
    ensures TwoStepsFrom(m, p, {}) == {} && Elements<Triple>([]) == {}
    ensures forall c :: TwoSteps(m, p, c, []) == {}
  {
  }

  lemma NoObjects(s: Term, p: string)
    ensures Objects(s, p, []) == {}
  {
  }

  /** All conclusions of rdfs11 (rdfs5) from ts. */
  function TransitiveAll(p: string, ts: set<Triple>): set<Triple> {
    set a, b, t | a in ts && b in ts && t in Transitive(p, a, b) :: t
  }

  lemma TwoStepsAreTransitive(m: Relation, p: string, ts: set<Triple>)
    requires Records(m, p, ts)
    ensures TwoStepsFrom(m, p, m.Keys) == TransitiveAll(p, ts)
  {
    forall t ensures t in TwoStepsFrom(m, p, m.Keys) <==> t in TransitiveAll(p, ts) {
      if t in TwoStepsFrom(m, p, m.Keys) {
        var c, d, e :| c in m.Keys && d in At(m, c) && e in At(m, d) && t == Triple(Iri(c), Iri(p), Iri(e));
        assert Sends(m, c, d) && Sends(m, d, e);
        var a, b := Triple(Iri(c), Iri(p), Iri(d)), Triple(Iri(d), Iri(p), Iri(e));
        assert a in ts && b in ts && t in Transitive(p, a, b);
      }
      if t in TransitiveAll(p, ts) {
        var a, b :| a in ts && b in ts && t in Transitive(p, a, b);
        assert a == Triple(Iri(a.s.iri), Iri(p), Iri(a.o.iri)) && b == Triple(Iri(b.s.iri), Iri(p), Iri(b.o.iri));
        assert Sends(m, a.s.iri, a.o.iri) && Sends(m, b.s.iri, b.o.iri);
        assert a.s.iri in m.Keys && a.o.iri in At(m, a.s.iri) && b.o.iri in At(m, a.o.iri);
      }
    }
  }

  /** What the schema says about one triple. */
  function About(sc: Schema, t: Triple): set<Triple>
    requires t.p.Iri?
  {
    Predicates(t.s, At(sc.subprop, t.p.iri), t.o)
    + (if t.p.iri == RDF_TYPE
       then (if t.o.Iri? then Objects(t.s, RDF_TYPE, At(sc.subclass, t.o.iri)) else {})
       else Objects(t.s, RDF_TYPE, At(sc.domain, t.p.iri))
            + (if !t.o.Lit? then Objects(t.o, RDF_TYPE, At(sc.range, t.p.iri)) else {}))
  }

  lemma AllValid(valid: string -> bool, ts: set<Triple>, m: Relation, p: string, c: string)
    requires ValidIris(valid, ts) && Records(m, p, ts)
    ensures forall d :: d in At(m, c) ==> valid(d)
  {
    hide ValidIris, Records;
    forall d | d in At(m, c) ensures valid(d) {
      assert Sends(m, c, d);
      ListedValid(valid, ts, m, p, c, d);
    }
  }

  /** rdfs7, rdfs9, rdfs2 and rdfs3 for one triple. */
  method ApplyTo(valid: string -> bool, sc: Schema, t: Triple, next: seq<Triple>, ghost ts: set<Triple>) returns (next': seq<Triple>)
    requires Reads(sc, ts) && ValidIris(valid, ts) && t.p.Iri?
    ensures Elements(next') == Elements(next) + About(sc, t)
  {
    hide Records, ValidIris, Predicates, Objects, Elements;
    var p := t.p.iri;
    NoObjects(t.s, RDF_TYPE);
    NoObjects(t.o, RDF_TYPE);
    NoPredicates(t.s, t.o);
    AllValid(valid, ts, sc.subprop, SUBPROPERTY, p);
    AllValid(valid, ts, sc.domain, DOMAIN, p);
    AllValid(valid, ts, sc.range, RANGE, p);
    next' := next;
    if p in sc.subprop {
      next' := PushPredicates(valid, next', t.s, sc.subprop[p], t.o);
    }
    if p == RDF_TYPE {
      if t.o.Iri? && t.o.iri in sc.subclass {
        AllValid(valid, ts, sc.subclass, SUBCLASS, t.o.iri);
        next' := PushObjects(valid, next', t.s, RDF_TYPE, sc.subclass[t.o.iri]);
      }
    } else {
      if p in sc.domain {
        next' := PushObjects(valid, next', t.s, RDF_TYPE, sc.domain[p]);
      }
      if p in sc.range && !t.o.Lit? {
        next' := PushObjects(valid, next', t.o, RDF_TYPE, sc.range[p]);
      }
    }
  }

  lemma NoPredicates(s: Term, o: Term)
    ensures Predicates(s, [], o) == {}
  {
  }

  /** All conclusions of the data rules about b. */
  function DataAll(ts: set<Triple>, b: Triple): set<Triple> {
    set a, t | a in ts && t in DataRules(a, b) :: t
  }

  lemma ListedConclusion(m: Relation, p: string, ts: set<Triple>, c: string, d: string)
    requires Records(m, p, ts)
    ensures d in At(m, c) <==> Triple(Iri(c), Iri(p), Iri(d)) in ts
  {
    assert Sends(m, c, d) <==> d in At(m, c);
  }

  lemma AboutIsRules(sc: Schema, ts: set<Triple>, b: Triple)
    requires Reads(sc, ts) && b.p.Iri?
    ensures About(sc, b) == DataAll(ts, b)
  {
    hide Records, At;
    forall c, d
      ensures d in At(sc.subclass, c) <==> Triple(Iri(c), Iri(SUBCLASS), Iri(d)) in ts
      ensures d in At(sc.subprop, c) <==> Triple(Iri(c), Iri(SUBPROPERTY), Iri(d)) in ts
      ensures d in At(sc.domain, c) <==> Triple(Iri(c), Iri(DOMAIN), Iri(d)) in ts
      ensures d in At(sc.range, c) <==> Triple(Iri(c), Iri(RANGE), Iri(d)) in ts
    {
      ListedConclusion(sc.subclass, SUBCLASS, ts, c, d);
      ListedConclusion(sc.subprop, SUBPROPERTY, ts, c, d);
      ListedConclusion(sc.domain, DOMAIN, ts, c, d);
      ListedConclusion(sc.range, RANGE, ts, c, d);
    }
    forall t | t in DataAll(ts, b) ensures t in About(sc, b) {
      var a :| a in ts && t in DataRules(a, b);
      RuleIsListed(sc, a, b, t);
    }
    forall t | t in About(sc, b) ensures t in DataAll(ts, b) {
      ListedIsRule(sc, ts, b, t);
    }
  }

  lemma RuleIsListed(sc: Schema, a: Triple, b: Triple, t: Triple)
    requires b.p.Iri? && t in DataRules(a, b)
    requires Schematic(a, SUBPROPERTY) ==> a.o.iri in At(sc.subprop, a.s.iri)
    requires Schematic(a, SUBCLASS) ==> a.o.iri in At(sc.subclass, a.s.iri)
    requires Schematic(a, DOMAIN) ==> a.o.iri in At(sc.domain, a.s.iri)
    requires Schematic(a, RANGE) ==> a.o.iri in At(sc.range, a.s.iri)
    ensures t in About(sc, b)
  {
    hide At;
  }

  lemma ListedIsRule(sc: Schema, ts: set<Triple>, b: Triple, t: Triple)
    requires b.p.Iri? && t in About(sc, b)
    requires forall c, d :: d in At(sc.subclass, c) ==> Triple(Iri(c), Iri(SUBCLASS), Iri(d)) in ts
    requires forall c, d :: d in At(sc.subprop, c) ==> Triple(Iri(c), Iri(SUBPROPERTY), Iri(d)) in ts
    requires forall c, d :: d in At(sc.domain, c) ==> Triple(Iri(c), Iri(DOMAIN), Iri(d)) in ts
    requires forall c, d :: d in At(sc.range, c) ==> Triple(Iri(c), Iri(RANGE), Iri(d)) in ts
    ensures t in DataAll(ts, b)
  {
    hide At, DataRules;
    var p := b.p.iri;
    if t in Predicates(b.s, At(sc.subprop, p), b.o) {
      var q :| q in At(sc.subprop, p) && t == Triple(b.s, Iri(q), b.o);
      RuleFires(Triple(Iri(p), Iri(SUBPROPERTY), Iri(q)), b, t);
    } else if p == RDF_TYPE {
      var d :| d in At(sc.subclass, b.o.iri) && t == Triple(b.s, Iri(RDF_TYPE), Iri(d));
      RuleFires(Triple(Iri(b.o.iri), Iri(SUBCLASS), Iri(d)), b, t);
    } else if t in Objects(b.s, RDF_TYPE, At(sc.domain, p)) {
      var c :| c in At(sc.domain, p) && t == Triple(b.s, Iri(RDF_TYPE), Iri(c));
      RuleFires(Triple(Iri(p), Iri(DOMAIN), Iri(c)), b, t);
    } else {
      var c :| c in At(sc.range, p) && t == Triple(b.o, Iri(RDF_TYPE), Iri(c));
      RuleFires(Triple(Iri(p), Iri(RANGE), Iri(c)), b, t);
    }
  }

  lemma RuleFires(a: Triple, b: Triple, t: Triple)
    requires b.p.Iri? && a.s.Iri? && a.o.Iri?
    requires (a.p == Iri(SUBPROPERTY) && a.s == b.p && t == Triple(b.s, a.o, b.o))
      || (a.p == Iri(SUBCLASS) && b.p == Iri(RDF_TYPE) && a.s == b.o && t == Triple(b.s, Iri(RDF_TYPE), a.o))
      || (a.p == Iri(DOMAIN) && a.s == b.p && b.p != Iri(RDF_TYPE) && t == Triple(b.s, Iri(RDF_TYPE), a.o))
      || (a.p == Iri(RANGE) && a.s == b.p && b.p != Iri(RDF_TYPE) && !b.o.Lit? && t == Triple(b.o, Iri(RDF_TYPE), a.o))
    ensures t in DataRules(a, b)
  {
  }

  /** Everything one round concludes. */
  function Round(ts: set<Triple>): set<Triple> {
    set a, b, t | a in ts && b in ts && t in Conclusions(a, b) :: t
  }

  function DataFrom(ts: set<Triple>, bs: set<Triple>): set<Triple> {
    set b, t | b in bs && t in DataAll(ts, b) :: t
  }

  lemma DataFromMore(ts: set<Triple>, bs: set<Triple>, b: Triple)
    ensures DataFrom(ts, bs + {b}) == DataFrom(ts, bs) + DataAll(ts, b)
  {
  }

  lemma RoundSplits(ts: set<Triple>)
    ensures Round(ts) == TransitiveAll(SUBCLASS, ts) + TransitiveAll(SUBPROPERTY, ts) + DataFrom(ts, ts)
  {
    hide Transitive, DataRules;
    forall t ensures t in Round(ts) <==> t in TransitiveAll(SUBCLASS, ts) + TransitiveAll(SUBPROPERTY, ts) + DataFrom(ts, ts) {
      if t in TransitiveAll(SUBCLASS, ts) {
        var a, b :| a in ts && b in ts && t in Transitive(SUBCLASS, a, b);
        assert t in Conclusions(a, b);
      }
      if t in TransitiveAll(SUBPROPERTY, ts) {
        var a, b :| a in ts && b in ts && t in Transitive(SUBPROPERTY, a, b);
        assert t in Conclusions(a, b);
      }
      if t in DataFrom(ts, ts) {
        var b :| b in ts && t in DataAll(ts, b);
        var a :| a in ts && t in DataRules(a, b);
        assert t in Conclusions(a, b);
      }
      if t in Round(ts) {
        var a, b :| a in ts && b in ts && t in Conclusions(a, b);
        assert t in DataRules(a, b) ==> t in DataAll(ts, b);
      }
    }
  }

  /** Well-formed triples: what the parser's triple type admits. */
  predicate Proper(ts: set<Triple>) {
    forall t :: t in ts ==> !t.s.Lit? && t.p.Iri?
  }

  method DataRound(valid: string -> bool, sc: Schema, ts: set<Triple>, soFar: seq<Triple>) returns (next: seq<Triple>)
    requires Reads(sc, ts) && ValidIris(valid, ts) && Proper(ts)
    ensures Elements(next) == Elements(soFar) + DataFrom(ts, ts)
  {
    hide Reads, ValidIris, About, DataAll, Elements;
    next := soFar;
    var rest := ts;
    ghost var done: set<Triple> := {};
    while rest != {}
      invariant rest + done == ts && rest !! done
      invariant Elements(next) == Elements(soFar) + DataFrom(ts, done)
      decreases rest
    {
      hide DataFrom;
      var t :| t in rest;
      next := ApplyTo(valid, sc, t, next, ts);
      AboutIsRules(sc, ts, t);
      DataFromMore(ts, done, t);
      rest, done := rest - {t}, done + {t};
    }
    assert done == ts;
  }

  method OneRound(valid: string -> bool, ts: set<Triple>) returns (next: seq<Triple>)
    requires ValidIris(valid, ts) && Proper(ts)
    ensures Elements(next) == Round(ts)
  {
    hide ValidIris, Proper, Round, Records, DataFrom, TransitiveAll, TwoStepsFrom;
    var sc := ReadSchema(ts);
    var classes := TransitiveStep(valid, sc.subclass, SUBCLASS, ts);
    var properties := TransitiveStep(valid, sc.subprop, SUBPROPERTY, ts);
    TwoStepsAreTransitive(sc.subclass, SUBCLASS, ts);
    TwoStepsAreTransitive(sc.subprop, SUBPROPERTY, ts);
    ElementsSum(classes, properties);
    next := DataRound(valid, sc, ts, classes + properties);
    RoundSplits(ts);
  }

  lemma ElementsSum(a: seq<Triple>, b: seq<Triple>)
    ensures Elements(a + b) == Elements(a) + Elements(b)
  {
  }

  // ----- the fixpoint -----

  /** Terms the rules can ever put together: those of the base and the three predicates they write. */
  function Vocabulary(ts: set<Triple>): set<Term> {
    (set t | t in ts :: t.s) + (set t | t in ts :: t.p) + (set t | t in ts :: t.o)
    + {Iri(RDF_TYPE), Iri(SUBCLASS), Iri(SUBPROPERTY)}
  }

  predicate Over(t: Triple, terms: set<Term>) {
    t.s in terms && t.p in terms && t.o in terms
  }

  function Universe(terms: set<Term>): set<Triple> {
    set s, p, o | s in terms && p in terms && o in terms :: Triple(s, p, o)
  }

  lemma UniverseMember(terms: set<Term>, t: Triple)
    ensures t in Universe(terms) <==> Over(t, terms)
  {
    if Over(t, terms) { assert t == Triple(t.s, t.p, t.o); }
  }

  /** A conclusion is made of terms of its premises and keeps the shape of a triple. */
  lemma ConclusionStays(terms: set<Term>, a: Triple, b: Triple, t: Triple)
    requires t in Conclusions(a, b) && Over(a, terms) && Over(b, terms)
    requires Iri(RDF_TYPE) in terms && Iri(SUBCLASS) in terms && Iri(SUBPROPERTY) in terms
    ensures Over(t, terms)
    ensures !b.s.Lit? && a.p.Iri? && b.p.Iri? ==> !t.s.Lit? && t.p.Iri?
  {
  }

  ghost predicate ValidTerms(valid: string -> bool, terms: set<Term>) {
    forall x :: x in terms && x.Iri? ==> valid(x.iri)
  }

  lemma RoundStays(terms: set<Term>, ts: set<Triple>)
    requires ts <= Universe(terms) && Proper(ts)
    requires Iri(RDF_TYPE) in terms && Iri(SUBCLASS) in terms && Iri(SUBPROPERTY) in terms
    ensures Round(ts) <= Universe(terms) && Proper(ts + Round(ts))
  {
    hide Universe, Conclusions;
    forall t | t in Round(ts) ensures t in Universe(terms) && !t.s.Lit? && t.p.Iri? {
      var a, b :| a in ts && b in ts && t in Conclusions(a, b);
      UniverseMember(terms, a);
      UniverseMember(terms, b);
      UniverseMember(terms, t);
      ConclusionStays(terms, a, b, t);
    }
  }

  lemma UniverseValid(valid: string -> bool, terms: set<Term>, ts: set<Triple>)
    requires ts <= Universe(terms) && ValidTerms(valid, terms)
    ensures ValidIris(valid, ts)
  {
    hide Universe;
    forall t | t in ts ensures Over(t, terms) { UniverseMember(terms, t); }
  }

  lemma RoundIsSound(ts: set<Triple>, d: set<Triple>)
    requires ts <= d && RuleClosed(d)
    ensures Round(ts) <= d
  {
    hide Conclusions;
  }

  lemma NothingNewMeansClosed(ts: set<Triple>)
    requires Round(ts) <= ts
    ensures RuleClosed(ts)
  {
    hide Conclusions;
    forall a, b, t | a in ts && b in ts && t in Conclusions(a, b) ensures t in ts {
      assert t in Round(ts);
    }
  }

  /** Insert what is new; did anything change? */
  method InsertAll(ts: set<Triple>, next: seq<Triple>) returns (ts': set<Triple>, grew: bool)
    ensures ts' == ts + Elements(next) && (grew <==> ts' != ts)
  {
    ts', grew := ts, false;
    for i := 0 to |next|
      invariant ts' == ts + Elements(next[..i]) && (grew <==> ts' != ts)
    {
      ElementsMore(next[..i], next[i]);
      assert next[..i + 1] == next[..i] + [next[i]];
      if next[i] !in ts' {
        ts', grew := ts' + {next[i]}, true;
        assert next[i] in ts' && next[i] !in ts;
      }
    }
    assert next[..|next|] == next;
  }

  method ListOf(ts: set<Triple>) returns (out: seq<Triple>)
    ensures Elements(out) == ts && NoDuplicates(out)
  {
    out := [];
    var rest := ts;
    while rest != {}
      invariant rest <= ts && Elements(out) == ts - rest && NoDuplicates(out)
      decreases rest
    {
      var t :| t in rest;
      assert t !in Elements(out);
      ElementsMore(out, t);
      out := out + [t];
      rest := rest - {t};
    }
  }

  lemma BaseInUniverse(base: set<Triple>)
    ensures base <= Universe(Vocabulary(base))
  {
    forall t | t in base ensures t in Universe(Vocabulary(base)) {
      UniverseMember(Vocabulary(base), t);
    }
  }

  /** `rdfs_closure`: rounds until nothing new appears. It stops because the triples lie in a finite
      universe, and it returns the least closed set. */
  method RdfsClosure(valid: string -> bool, base: seq<Triple>) returns (out: seq<Triple>)
    requires Proper(Elements(base)) && ValidTerms(valid, Vocabulary(Elements(base)))
    ensures IsClosure(Elements(base), Elements(out)) && NoDuplicates(out)
    ensures Proper(Elements(out)) && Elements(out) <= Universe(Vocabulary(Elements(base)))
  {
    hide Universe, RuleClosed, Round, Proper, Vocabulary, ValidTerms, ValidIris, Elements, NoDuplicates;
    ghost var start := Elements(base);
    ghost var terms := Vocabulary(start);
    VocabularyHasPredicates(start);
    BaseInUniverse(start);
    var closure := ToSet(base);
    while true
      invariant start <= closure <= Universe(terms) && Proper(closure)
      invariant forall d: set<Triple> :: start <= d && RuleClosed(d) ==> closure <= d
      decreases |Universe(terms) - closure|
    {
      UniverseValid(valid, terms, closure);
      RoundStays(terms, closure);
      forall d: set<Triple> | start <= d && RuleClosed(d) ensures Round(closure) <= d {
        RoundIsSound(closure, d);
      }
      var next := OneRound(valid, closure);
      ghost var before := closure;
      var grew;
      closure, grew := InsertAll(closure, next);
      if !grew {
        assert Round(closure) <= closure;
        NothingNewMeansClosed(closure);
        break;
      }
      Shrinks(Universe(terms), before, closure);
    }
    out := ListOf(closure);
  }

  lemma VocabularyHasPredicates(ts: set<Triple>)
    ensures Iri(RDF_TYPE) in Vocabulary(ts) && Iri(SUBCLASS) in Vocabulary(ts) && Iri(SUBPROPERTY) in Vocabulary(ts)
  {
  }

  lemma Shrinks(u: set<Triple>, before: set<Triple>, after: set<Triple>)
    requires before <= after <= u && before != after
    ensures |u - after| < |u - before|
  {
    assert u - before == (u - after) + (after - before);
    assert after - before != {} by {
      if after - before == {} {
        forall t | t in after ensures t in before { assert t !in after - before; }
      }
    }
  }

  method ToSet(ts: seq<Triple>) returns (s: set<Triple>)
    ensures s == Elements(ts)
  {
    var b;
    s, b := InsertAll({}, ts);
  }

  // ----- every base has a closure -----

  lemma Saturates(base: set<Triple>, terms: set<Term>, ts: set<Triple>) returns (c: set<Triple>)
    requires base <= ts <= Universe(terms) && Proper(ts)
    requires Iri(RDF_TYPE) in terms && Iri(SUBCLASS) in terms && Iri(SUBPROPERTY) in terms
    requires forall d: set<Triple> :: base <= d && RuleClosed(d) ==> ts <= d
    ensures IsClosure(base, c) && Proper(c)
    decreases |Universe(terms) - ts|
  {
    hide Universe, Round, RuleClosed, Proper;
    if Round(ts) <= ts {
      NothingNewMeansClosed(ts);
      c := ts;
    } else {
      RoundStays(terms, ts);
      forall d: set<Triple> | base <= d && RuleClosed(d) ensures ts + Round(ts) <= d { RoundIsSound(ts, d); }
      Shrinks(Universe(terms), ts, ts + Round(ts));
      c := Saturates(base, terms, ts + Round(ts));
    }
  }

  /** The least closed set exists for every base of RDF triples. */
  lemma ClosureExists(base: set<Triple>) returns (c: set<Triple>)
    requires Proper(base)
    ensures IsClosure(base, c) && Proper(c)
  {
    VocabularyHasPredicates(base);
    BaseInUniverse(base);
    c := Saturates(base, Vocabulary(base), base);
  }

  /** Whatever holds of the base and is kept by the rules holds of the closure. */
  lemma ClosureKeeps(base: set<Triple>, c: set<Triple>, holds: Triple -> bool)
    requires IsClosure(base, c) && forall t :: t in base ==> holds(t)
    requires forall a, b, t :: holds(a) && holds(b) && t in Conclusions(a, b) ==> holds(t)
    ensures forall t :: t in c ==> holds(t)
  {
    hide Conclusions;
    var d := set t | t in c && holds(t);
    forall a, b | a in d && b in d ensures Conclusions(a, b) <= d {
      assert Conclusions(a, b) <= c;
    }
    assert base <= d && RuleClosed(d);
  }

  lemma TypeIsNotSchema()
    ensures RDF_TYPE != SUBCLASS && RDF_TYPE != SUBPROPERTY && RDF_TYPE != DOMAIN && RDF_TYPE != RANGE
    ensures DOMAIN != SUBCLASS && DOMAIN != SUBPROPERTY && DOMAIN != RANGE
  {
    VocabularyDistinct();
    assert RDF_TYPE[18] == '1' && SUBCLASS[18] == '2' && SUBPROPERTY[18] == '2' && DOMAIN[18] == '2' && RANGE[18] == '2';
  }
}
