/**
 Compiling a SPARQL property path to an execution plan, and the proof that the plan means the path.

 Inverses fold into one direction flag, alternations flatten into one predicate set, and a closure
 ranges over that set. Meanings are sets of pairs (SPARQL 1.1 Query, sections 9.3 and 18.4, without
 multiplicities).
 */
module PathCompiler {
  import opened Sequences
  import opened Terms
  import opened Relations

  datatype PathExpr =
    | Named(iri: string)
    | Reverse(inner: PathExpr)
    | Sequence(left: PathExpr, right: PathExpr)
    | Alternative(left: PathExpr, right: PathExpr)
    | ZeroOrMore(inner: PathExpr)
    | OneOrMore(inner: PathExpr)
    | ZeroOrOne(inner: PathExpr)
    | NegatedSet(iris: seq<string>)

  /** One triple of the active graph, predicate by name, ends by id. */
  datatype Edge = Edge(src: int, iri: string, dst: int)

  function StepOver(rows: set<Edge>, iris: seq<string>): Rel {
    set e | e in rows && e.iri in iris :: Pair(e.src, e.dst)
  }

  /** The path's relation over the rows of the active graph; `nodes` are those a zero-length path
      joins to themselves. */
  ghost function Denote(rows: set<Edge>, nodes: set<int>, e: PathExpr): Rel {
    match e
    case Named(p) => StepOver(rows, [p])
    case Reverse(x) => Converse(Denote(rows, nodes, x))
    case Sequence(x, y) => Compose(Denote(rows, nodes, x), Denote(rows, nodes, y))
    case Alternative(x, y) => Denote(rows, nodes, x) + Denote(rows, nodes, y)
    case OneOrMore(x) => Plus(Denote(rows, nodes, x))
    case ZeroOrMore(x) => Plus(Denote(rows, nodes, x)) + ZeroLength(nodes)
    case ZeroOrOne(x) => Denote(rows, nodes, x) + ZeroLength(nodes)
    case NegatedSet(ps) => set t | t in rows && t.iri !in ps :: Pair(t.src, t.dst)
  }

  /** A subject or object of the path pattern. */
  datatype Endpoint = Var(name: string) | Const(id: int)

  function Value(binding: string -> int, e: Endpoint): int {
    match e
    case Var(v) => binding(v)
    case Const(n) => n
  }

  datatype Plan =
    | Lower(subject: Endpoint, iri: string, obj: Endpoint)
    | PlusPlan(iris: seq<string>, swapped: bool)
    | StarPlan(iris: seq<string>, swapped: bool)
    | OptionalPlan(iris: seq<string>, swapped: bool)
    | AlternationPlan(iris: seq<string>, swapped: bool)

  datatype Refusal = Nested | Negated | SequencePath

  datatype Classified = Planned(plan: Plan) | NotPlanned(why: Refusal)

  function Flip(swapped: bool, r: Rel): Rel {
    if swapped then Converse(r) else r
  }

  /** What a derived relation holds: the step over the predicate set, in the plan's direction. */
  ghost function PlanRelation(rows: set<Edge>, nodes: set<int>, plan: Plan): Rel
    requires !plan.Lower?
  {
    var step := Flip(plan.swapped, StepOver(rows, plan.iris));
    match plan
    case PlusPlan(_, _) => Plus(step)
    case StarPlan(_, _) => Plus(step) + ZeroLength(nodes)
    case OptionalPlan(_, _) => step + ZeroLength(nodes)
    case AlternationPlan(_, _) => step
  }

  /** Does a binding satisfy the compiled pattern? A lowered triple carries its own endpoints. */
  ghost predicate PlanHolds(rows: set<Edge>, nodes: set<int>, plan: Plan, subject: Endpoint, obj: Endpoint, binding: string -> int) {
    if plan.Lower?
    then Pair(Value(binding, plan.subject), Value(binding, plan.obj)) in StepOver(rows, [plan.iri])
    else Pair(Value(binding, subject), Value(binding, obj)) in PlanRelation(rows, nodes, plan)
  }

  ghost predicate PathHolds(rows: set<Edge>, nodes: set<int>, e: PathExpr, subject: Endpoint, obj: Endpoint, binding: string -> int) {
    Pair(Value(binding, subject), Value(binding, obj)) in Denote(rows, nodes, e)
  }

  /** The plan has exactly the path's solutions, over every graph and every binding. */
  ghost predicate Compiles(plan: Plan, subject: Endpoint, e: PathExpr, obj: Endpoint) {
    forall rows, nodes, binding ::
      PlanHolds(rows, nodes, plan, subject, obj, binding) <==> PathHolds(rows, nodes, e, subject, obj, binding)
  }

  // ----- which paths are executable -----

  /** The expression below the outer inverses, and their parity. */
  function Core(e: PathExpr): PathExpr {
    if e.Reverse? then Core(e.inner) else e
  }

  function Parity(e: PathExpr): bool {
    e.Reverse? && !Parity(e.inner)
  }

  predicate Plain(e: PathExpr) {
    Core(e).Named?
  }

  function Arms(e: PathExpr): (arms: seq<PathExpr>)
    ensures arms != []
  {
    if e.Alternative? then Arms(e.left) + Arms(e.right) else [e]
  }

  /** Every arm of the alternation is a plain predicate read in direction d. */
  predicate ArmsAre(e: PathExpr, d: bool) {
    forall a :: a in Arms(e) ==> Plain(a) && Parity(a) == d
  }

  predicate Uniform(e: PathExpr) {
    ArmsAre(e, Parity(Arms(e)[0]))
  }

  /** What a closure may range over. An inverse around an alternation is not accepted here. */
  predicate Foldable(e: PathExpr) {
    Plain(e) || (e.Alternative? && Uniform(e))
  }

  predicate Executable(e: PathExpr) {
    var c := Core(e);
    match c
    case Named(_) => true
    case OneOrMore(x) => Foldable(x)
    case ZeroOrMore(x) => Foldable(x)
    case ZeroOrOne(x) => Foldable(x)
    case Alternative(_, _) => Uniform(c)
    case _ => false
  }

  // ----- the same, by the grammar of paths -----

  /** x under n inverses. */
  function Inverted(n: nat, x: PathExpr): PathExpr {
    if n == 0 then x else Reverse(Inverted(n - 1, x))
  }

  /** A predicate under inverses: an odd number of them when read backwards. */
  ghost predicate Leaf(e: PathExpr, backwards: bool) {
    exists n, p :: e == Inverted(n, Named(p)) && (n % 2 == 1) == backwards
  }

  /** An alternation, of any shape, of leaves read in one direction; or one leaf. */
  ghost predicate Choice(e: PathExpr, backwards: bool) {
    if e.Alternative? then Choice(e.left, backwards) && Choice(e.right, backwards) else Leaf(e, backwards)
  }

  ghost predicate OneStep(e: PathExpr) {
    Choice(e, false) || Choice(e, true)
  }

  /** What the operators of a supported path look like below its outer inverses: p, a|b, and +, * or ? over
      one of these. */
  ghost predicate Supported(x: PathExpr) {
    match x
    case Named(_) => true
    case Alternative(_, _) => OneStep(x)
    case OneOrMore(y) => OneStep(y)
    case ZeroOrMore(y) => OneStep(y)
    case ZeroOrOne(y) => OneStep(y)
    case _ => false
  }

  ghost predicate IsSupported(e: PathExpr) {
    exists n, x :: e == Inverted(n, x) && Supported(x)
  }

  /** The kind of plan such a path gets. */
  predicate KindFits(plan: Plan, x: PathExpr) {
    match x
    case Named(_) => plan.Lower?
    case Alternative(_, _) => plan.AlternationPlan?
    case OneOrMore(_) => plan.PlusPlan?
    case ZeroOrMore(_) => plan.StarPlan?
    case ZeroOrOne(_) => plan.OptionalPlan?
    case _ => false
  }

  /** An arm of the alternation tree e. */
  predicate IsArm(e: PathExpr, a: PathExpr) {
    if e.Alternative? then IsArm(e.left, a) || IsArm(e.right, a) else a == e
  }

  /** An arm that is no predicate under inverses, or two arms read in opposite directions. */
  ghost predicate Offends(e: PathExpr) {
    || (exists a :: IsArm(e, a) && !Leaf(a, false) && !Leaf(a, true))
    || (exists a, b :: IsArm(e, a) && IsArm(e, b) && Leaf(a, false) && Leaf(b, true))
  }

  lemma {:induction false} CoreOfInverted(n: nat, x: PathExpr)
    requires !x.Reverse?
    ensures Core(Inverted(n, x)) == x && (Parity(Inverted(n, x)) <==> n % 2 == 1)
  {
    if n > 0 { CoreOfInverted(n - 1, x); }
  }

  lemma {:induction false} IsInverted(e: PathExpr) returns (n: nat)
    ensures e == Inverted(n, Core(e)) && (Parity(e) <==> n % 2 == 1) && !Core(e).Reverse?
  {
    if e.Reverse? {
      n := IsInverted(e.inner);
      n := n + 1;
    } else {
      n := 0;
    }
  }

  lemma LeafIsPlain(e: PathExpr, d: bool)
    ensures Leaf(e, d) <==> Plain(e) && Parity(e) == d
  {
    if n, p :| e == Inverted(n, Named(p)) && (n % 2 == 1) == d { CoreOfInverted(n, Named(p)); }
    if Plain(e) && Parity(e) == d {
      var n := IsInverted(e);
      assert e == Inverted(n, Named(Core(e).iri));
    }
  }

  lemma {:induction false} ChoiceIsArms(e: PathExpr, d: bool)
    ensures Choice(e, d) <==> ArmsAre(e, d)
  {
    if e.Alternative? {
      ChoiceIsArms(e.left, d);
      ChoiceIsArms(e.right, d);
      assert forall a :: a in Arms(e) <==> a in Arms(e.left) || a in Arms(e.right);
    } else {
      LeafIsPlain(e, d);
    }
  }

  lemma OneStepIsUniform(e: PathExpr)
    ensures OneStep(e) <==> Uniform(e)
    ensures OneStep(e) && !e.Alternative? <==> Plain(e)
    ensures OneStep(e) <==> Foldable(e)
  {
    ChoiceIsArms(e, false);
    ChoiceIsArms(e, true);
    LeafIsPlain(e, false);
    LeafIsPlain(e, true);
    assert Arms(e)[0] in Arms(e);
    assert !e.Alternative? ==> Arms(e) == [e];
  }

  /** What can be executed is what the grammar above supports. */
  lemma ExecutableIsSupported(e: PathExpr)
    ensures Executable(e) <==> IsSupported(e)
  {
    var c := Core(e);
    var n := IsInverted(e);
    if c.OneOrMore? || c.ZeroOrMore? || c.ZeroOrOne? { OneStepIsUniform(c.inner); }
    OneStepIsUniform(c);
    hide OneStep, Uniform, Foldable;
    if m, x :| e == Inverted(m, x) && Supported(x) { CoreOfInverted(m, x); }
    assert Supported(c) ==> e == Inverted(n, c) && Supported(c);
  }

  lemma SupportedUnder(n: nat, x: PathExpr)
    requires Supported(x)
    ensures IsSupported(Inverted(n, x))
  {
    hide Supported;
  }

  lemma StepForms(n: nat, y: PathExpr)
    requires OneStep(y)
    ensures IsSupported(Inverted(n, OneOrMore(y))) && IsSupported(Inverted(n, ZeroOrMore(y))) && IsSupported(Inverted(n, ZeroOrOne(y)))
  {
    hide OneStep, IsSupported;
    SupportedUnder(n, OneOrMore(y));
    SupportedUnder(n, ZeroOrMore(y));
    SupportedUnder(n, ZeroOrOne(y));
  }

  /** Form by form: a predicate, and +, * and ? over it, with any inverses inside and out. */
  lemma SupportedForms(n: nat, m: nat, p: string)
    ensures var x := Inverted(m, Named(p));
      && IsSupported(Inverted(n, Named(p))) && IsSupported(Inverted(n, OneOrMore(x)))
      && IsSupported(Inverted(n, ZeroOrMore(x))) && IsSupported(Inverted(n, ZeroOrOne(x)))
  {
    var x := Inverted(m, Named(p));
    assert Leaf(x, m % 2 == 1) && !x.Alternative?;
    assert OneStep(x);
    hide Leaf, OneStep, IsSupported;
    StepForms(n, x);
    SupportedUnder(n, Named(p));
  }

  /** The same for an alternation of two choices of one direction. */
  lemma SupportedAlternations(n: nat, left: PathExpr, right: PathExpr, d: bool)
    requires Choice(left, d) && Choice(right, d)
    ensures var y := Alternative(left, right);
      && IsSupported(Inverted(n, y)) && IsSupported(Inverted(n, OneOrMore(y)))
      && IsSupported(Inverted(n, ZeroOrMore(y))) && IsSupported(Inverted(n, ZeroOrOne(y)))
  {
    var y := Alternative(left, right);
    assert OneStep(y);
    hide Choice, OneStep, IsSupported;
    StepForms(n, y);
    SupportedUnder(n, y);
  }

  /** Negated sets, sequences and closures of closures are not. */
  lemma UnsupportedForms(n: nat, m: nat, ps: seq<string>, left: PathExpr, right: PathExpr)
    ensures !IsSupported(Inverted(n, NegatedSet(ps))) && !IsSupported(Inverted(n, Sequence(left, right)))
    ensures !IsSupported(Inverted(n, OneOrMore(Inverted(m, ZeroOrMore(left)))))
  {
    NotSupported(n, NegatedSet(ps));
    NotSupported(n, Sequence(left, right));
    var z := Inverted(m, ZeroOrMore(left));
    CoreOfInverted(m, ZeroOrMore(left));
    OneStepIsUniform(z);
    assert z.Alternative? ==> Core(z) == z;
    NotSupported(n, OneOrMore(z));
  }

  lemma NotSupported(n: nat, x: PathExpr)
    requires !x.Reverse? && !Supported(x)
    ensures !IsSupported(Inverted(n, x))
  {
    var e := Inverted(n, x);
    CoreOfInverted(n, x);
    hide Supported;
    if m, y :| e == Inverted(m, y) && Supported(y) {
      SupportedIsCore(y);
      CoreOfInverted(m, y);
    }
  }

  lemma SupportedIsCore(x: PathExpr)
    ensures Supported(x) ==> !x.Reverse?
  {
  }

  lemma {:induction false} ArmsAreArms(e: PathExpr, a: PathExpr)
    ensures IsArm(e, a) <==> a in Arms(e)
  {
    if e.Alternative? {
      ArmsAreArms(e.left, a);
      ArmsAreArms(e.right, a);
    }
  }

  /** An alternation is refused only for an arm that is no predicate, or for arms that disagree. */
  lemma RefusalHasCause(e: PathExpr)
    ensures !OneStep(e) <==> Offends(e)
  {
    OneStepIsUniform(e);
    forall a ensures IsArm(e, a) <==> a in Arms(e) { ArmsAreArms(e, a); }
    forall a, d ensures Leaf(a, d) <==> Plain(a) && Parity(a) == d { LeafIsPlain(a, d); }
    hide OneStep, Leaf, IsArm, Arms, Plain, Parity;
    var first := Arms(e)[0];
    assert first in Arms(e);
    if !Uniform(e) {
      var a :| a in Arms(e) && !(Plain(a) && Parity(a) == Parity(first));
      if Plain(a) && Plain(first) {
        var f, b := if Parity(first) then a else first, if Parity(first) then first else a;
        assert IsArm(e, f) && IsArm(e, b) && Leaf(f, false) && Leaf(b, true);
      } else {
        var bad := if Plain(a) then first else a;
        assert IsArm(e, bad) && !Leaf(bad, false) && !Leaf(bad, true);
      }
    }
  }

  function Name(e: PathExpr): string {
    if Core(e).Named? then Core(e).iri else ""
  }

  function Names(e: PathExpr): seq<string> {
    Map(Name, Arms(e))
  }

  // ----- the compiler -----

  /** The direction flag after an arm: the starting one, flipped by the arm's own inverses. */
  function Turn(start: bool, parity: bool): bool {
    start != parity
  }

  method FoldPlainPredicate(e: PathExpr, start: bool) returns (r: Option<(string, bool)>)
    ensures r == if Plain(e) then Some((Core(e).iri, Turn(start, Parity(e)))) else None
  {
    var swapped, ic := start, e;
    while true
      invariant Core(ic) == Core(e) && Turn(swapped, Parity(ic)) == Turn(start, Parity(e))
      decreases ic
    {
      match ic
      case Reverse(b) =>
        swapped, ic := !swapped, b;
      case Named(p) =>
        return Some((p, swapped));
      case _ =>
        return None;
    }
  }

  /** Whether every arm is plain and, after turning, agrees with the direction found so far. */
  predicate Agrees(e: PathExpr, start: bool, dir: Option<bool>) {
    forall a :: a in Arms(e) ==> Plain(a) && Turn(start, Parity(a)) == Direction(e, start, dir)
  }

  function Direction(e: PathExpr, start: bool, dir: Option<bool>): bool {
    match dir
    case Some(d) => d
    case None => Turn(start, Parity(Arms(e)[0]))
  }

  /** The recursive flattening: predicates are pushed, the first arm fixes the direction. */
  method FlattenArms(e: PathExpr, start: bool, preds: seq<string>, dir: Option<bool>)
    returns (ok: bool, preds': seq<string>, dir': Option<bool>)
    ensures ok <==> Agrees(e, start, dir)
    ensures ok ==> preds' == preds + Names(e) && dir' == Some(Direction(e, start, dir))
    decreases e
  {
    preds', dir' := preds, dir;
    if e.Alternative? {
      hide Agrees, Direction, Names, Arms;
      AlternativeAgrees(e, start, dir);
      ok, preds', dir' := FlattenArms(e.left, start, preds', dir');
      if ok {
        ok, preds', dir' := FlattenArms(e.right, start, preds', dir');
      }
    } else {
      ok, preds', dir' := PushArm(e, start, preds', dir');
    }
  }

  /** One arm: it must be plain and agree with the direction of those before it. */
  method PushArm(e: PathExpr, start: bool, preds: seq<string>, dir: Option<bool>)
    returns (ok: bool, preds': seq<string>, dir': Option<bool>)
    requires !e.Alternative?
    ensures ok <==> Agrees(e, start, dir)
    ensures ok ==> preds' == preds + Names(e) && dir' == Some(Direction(e, start, dir))
  {
    LeafAgrees(e, start, dir);
    hide Agrees, Arms, Core, Direction, Names, Parity, Turn;
    preds', dir' := preds, dir;
    var folded := FoldPlainPredicate(e, start);
    match folded
    case None =>
      ok := false;
    case Some(found) =>
      match dir {
        case None =>
          ok, dir' := true, Some(found.1);
        case Some(d) =>
          ok := d == found.1;
      }
      preds' := preds' + [found.0];
  }

  lemma AlternativeAgrees(e: PathExpr, start: bool, dir: Option<bool>)
    requires e.Alternative?
    ensures var d := Some(Direction(e.left, start, dir));
      && (Agrees(e, start, dir) <==> Agrees(e.left, start, dir) && Agrees(e.right, start, d))
      && Direction(e.right, start, d) == Direction(e, start, dir) == Direction(e.left, start, dir)
    ensures Names(e) == Names(e.left) + Names(e.right)
  {
    hide Plain, Parity;
    assert Arms(e) == Arms(e.left) + Arms(e.right);
  }

  lemma LeafAgrees(e: PathExpr, start: bool, dir: Option<bool>)
    requires !e.Alternative?
    ensures Agrees(e, start, dir) <==> Plain(e) && (dir.Some? ==> Turn(start, Parity(e)) == dir.value)
    ensures Names(e) == [Name(e)]
    ensures Direction(e, start, dir) == if dir.Some? then dir.value else Turn(start, Parity(e))
  {
    assert Arms(e) == [e];
  }

  method FlattenAlternation(e: PathExpr, start: bool) returns (r: Option<(seq<string>, bool)>)
    ensures r == if Uniform(e) then Some((Names(e), Turn(start, Parity(Arms(e)[0])))) else None
  {
    var ok, preds, dir := FlattenArms(e, start, [], None);
    AgreesFromNothing(e, start);
    assert [] + Names(e) == Names(e);
    if ok && preds != [] {
      r := Some((preds, if dir.Some? then dir.value else start));
    } else {
      r := None;
    }
  }

  /** Success does not depend on the direction one starts in. */
  lemma AgreesFromNothing(e: PathExpr, start: bool)
    ensures Agrees(e, start, None) <==> Uniform(e)
  {
  }

  /** The predicate set and direction of a closure's operand. */
  function Operand(e: PathExpr, outer: bool): (seq<string>, bool) {
    if Plain(e) then ([Core(e).iri], Turn(outer, Parity(e)))
    else (Names(e), Turn(outer, Parity(Arms(e)[0])))
  }

  method FoldInnerPredicates(inner: PathExpr, outer: bool) returns (r: Option<(seq<string>, bool)>)
    ensures r == if Foldable(inner) then Some(Operand(inner, outer)) else None
  {
    var plain := FoldPlainPredicate(inner, outer);
    if plain.Some? {
      return Some(([plain.value.0], plain.value.1));
    }
    if inner.Alternative? {
      r := FlattenAlternation(inner, outer);
    } else {
      r := None;
    }
  }

  /** A closure or an alternation over something that offends. */
  ghost predicate IsNested(x: PathExpr) {
    match x
    case Alternative(_, _) => Offends(x)
    case OneOrMore(y) => Offends(y)
    case ZeroOrMore(y) => Offends(y)
    case ZeroOrOne(y) => Offends(y)
    case _ => false
  }

  predicate NestedCore(c: PathExpr) {
    (c.Alternative? && !Uniform(c)) || ((c.OneOrMore? || c.ZeroOrMore? || c.ZeroOrOne?) && !Foldable(c.inner))
  }

  /** What stands below the inverses is one thing. */
  lemma BelowInverses(e: PathExpr)
    ensures forall n, x :: e == Inverted(n, x) && !x.Reverse? ==> x == Core(e)
    ensures (exists n, x :: e == Inverted(n, x) && IsNested(x)) <==> NestedCore(Core(e))
    ensures Supported(Core(e)) <==> Executable(e)
  {
    var m := IsInverted(e);
    forall n, x | e == Inverted(n, x) && !x.Reverse? ensures x == Core(e) { CoreOfInverted(n, x); }
    var c := Core(e);
    OneStepIsUniform(c);
    RefusalHasCause(c);
    if c.OneOrMore? || c.ZeroOrMore? || c.ZeroOrOne? {
      OneStepIsUniform(c.inner);
      RefusalHasCause(c.inner);
    }
    assert IsNested(c) <==> NestedCore(c);
    if n, x :| e == Inverted(n, x) && IsNested(x) { assert !x.Reverse?; }
    if IsNested(c) { assert e == Inverted(m, c); }
  }

  /** `classify_path`: the plan, or which construct is not supported. A plan exists exactly for the
      supported paths, and it has exactly the path's solutions. */
  method ClassifyPath(subject: Endpoint, path: PathExpr, obj: Endpoint) returns (r: Classified)
    ensures r.Planned? <==> IsSupported(path)
    ensures r.Planned? ==> Compiles(r.plan, subject, path, obj)
    ensures r.Planned? ==> exists n, x :: path == Inverted(n, x) && Supported(x) && KindFits(r.plan, x)
    ensures r == NotPlanned(Negated) <==> exists n, ps :: path == Inverted(n, NegatedSet(ps))
    ensures r == NotPlanned(SequencePath) <==> exists n, a, b :: path == Inverted(n, Sequence(a, b))
    ensures r == NotPlanned(Nested) <==> exists n, x :: path == Inverted(n, x) && IsNested(x)
  {
    hide Compiles, Foldable, Uniform, Operand, Supported, IsNested;
    ExecutableIsSupported(path);
    ghost var depth := IsInverted(path);
    BelowInverses(path);
    var swapped, cur := false, path;
    while true
      invariant Core(cur) == Core(path) && Turn(swapped, Parity(cur)) == Parity(path)
      decreases cur
    {
      match cur
      case Reverse(inner) =>
        swapped, cur := !swapped, inner;
      case Named(p) =>
        LowerCompiles(subject, path, obj);
        return Planned(if swapped then Lower(obj, p, subject) else Lower(subject, p, obj));
      case OneOrMore(inner) =>
        var o := FoldInnerPredicates(inner, swapped);
        if o.None? { return NotPlanned(Nested); }
        ClosureCompiles(PlusPlan(o.value.0, o.value.1), subject, path, obj);
        return Planned(PlusPlan(o.value.0, o.value.1));
      case ZeroOrMore(inner) =>
        var o := FoldInnerPredicates(inner, swapped);
        if o.None? { return NotPlanned(Nested); }
        ClosureCompiles(StarPlan(o.value.0, o.value.1), subject, path, obj);
        return Planned(StarPlan(o.value.0, o.value.1));
      case ZeroOrOne(inner) =>
        var o := FoldInnerPredicates(inner, swapped);
        if o.None? { return NotPlanned(Nested); }
        ClosureCompiles(OptionalPlan(o.value.0, o.value.1), subject, path, obj);
        return Planned(OptionalPlan(o.value.0, o.value.1));
      case Alternative(_, _) =>
        var o := FlattenAlternation(cur, swapped);
        if o.None? { return NotPlanned(Nested); }
        AlternationCompiles(AlternationPlan(o.value.0, o.value.1), subject, path, obj);
        return Planned(AlternationPlan(o.value.0, o.value.1));
      case NegatedSet(_) =>
        return NotPlanned(Negated);
      case Sequence(_, _) =>
        return NotPlanned(SequencePath);
    }
  }

  /** `is_executable`: the parse-time check, decided without a starting direction. */
  method IsExecutable(path: PathExpr) returns (b: bool)
    ensures b <==> IsSupported(path)
  {
    ExecutableIsSupported(path);
    var cur := path;
    while cur.Reverse?
      invariant Core(cur) == Core(path)
      decreases cur
    {
      cur := cur.inner;
    }
    match cur
    case Named(_) => b := true;
    case OneOrMore(inner) => b := InnerIsPlainOrAlternation(inner);
    case ZeroOrMore(inner) => b := InnerIsPlainOrAlternation(inner);
    case ZeroOrOne(inner) => b := InnerIsPlainOrAlternation(inner);
    case Alternative(_, _) =>
      var o := FlattenAlternation(cur, false);
      b := o.Some?;
    case _ => b := false;
  }

  method InnerIsPlainOrAlternation(inner: PathExpr) returns (b: bool)
    ensures b <==> Foldable(inner)
  {
    var plain := FoldPlainPredicate(inner, false);
    if plain.Some? {
      return true;
    }
    if inner.Alternative? {
      var o := FlattenAlternation(inner, false);
      return o.Some?;
    }
    b := false;
  }

  // ----- the plan means the path -----

  lemma FlipTwice(a: bool, b: bool, r: Rel)
    ensures Flip(a, Flip(b, r)) == Flip(Turn(a, b), r)
  {
    ConverseTwice(r);
  }

  lemma {:induction false} CoreMeaning(rows: set<Edge>, nodes: set<int>, e: PathExpr)
    ensures Denote(rows, nodes, e) == Flip(Parity(e), Denote(rows, nodes, Core(e)))
  {
    if e.Reverse? {
      CoreMeaning(rows, nodes, e.inner);
      FlipTwice(true, Parity(e.inner), Denote(rows, nodes, Core(e)));
    }
  }

  lemma StepOverUnion(rows: set<Edge>, ps: seq<string>, qs: seq<string>)
    ensures StepOver(rows, ps + qs) == StepOver(rows, ps) + StepOver(rows, qs)
  {
  }

  lemma FlipUnion(d: bool, r: Rel, q: Rel)
    ensures Flip(d, r + q) == Flip(d, r) + Flip(d, q)
  {
    ConverseUnion(r, q);
  }

  /** An alternation with arms of one direction is one step over the set of their predicates. */
  lemma {:induction false} ArmsMeaning(rows: set<Edge>, nodes: set<int>, e: PathExpr, d: bool)
    requires ArmsAre(e, d)
    ensures Denote(rows, nodes, e) == Flip(d, StepOver(rows, Names(e)))
  {
    if e.Alternative? {
      assert Arms(e) == Arms(e.left) + Arms(e.right);
      ArmsMeaning(rows, nodes, e.left, d);
      ArmsMeaning(rows, nodes, e.right, d);
      assert Names(e) == Names(e.left) + Names(e.right);
      StepOverUnion(rows, Names(e.left), Names(e.right));
      FlipUnion(d, StepOver(rows, Names(e.left)), StepOver(rows, Names(e.right)));
    } else {
      assert e in Arms(e);
      CoreMeaning(rows, nodes, e);
      assert Names(e) == [Core(e).iri];
    }
  }

  /** A closure's operand is one step over its predicate set. */
  lemma OperandMeaning(rows: set<Edge>, nodes: set<int>, e: PathExpr, outer: bool)
    requires Foldable(e)
    ensures Flip(outer, Denote(rows, nodes, e)) == Flip(Operand(e, outer).1, StepOver(rows, Operand(e, outer).0))
  {
    if Plain(e) {
      CoreMeaning(rows, nodes, e);
      FlipTwice(outer, Parity(e), StepOver(rows, [Core(e).iri]));
    } else {
      var d := Parity(Arms(e)[0]);
      ArmsMeaning(rows, nodes, e, d);
      FlipTwice(outer, d, StepOver(rows, Names(e)));
    }
  }

  lemma FlipPlus(d: bool, r: Rel)
    ensures Flip(d, Plus(r)) == Plus(Flip(d, r))
  {
    PlusConverse(r);
  }

  lemma FlipZero(d: bool, nodes: set<int>)
    ensures Flip(d, ZeroLength(nodes)) == ZeroLength(nodes)
  {
    ConverseZero(nodes);
  }

  /** Inverses move through every closure: ^(p+) is (^p)+, and likewise for * and ?. */
  lemma InverseMovesIn(rows: set<Edge>, nodes: set<int>, x: PathExpr)
    ensures Denote(rows, nodes, Reverse(OneOrMore(x))) == Denote(rows, nodes, OneOrMore(Reverse(x)))
    ensures Denote(rows, nodes, Reverse(ZeroOrMore(x))) == Denote(rows, nodes, ZeroOrMore(Reverse(x)))
    ensures Denote(rows, nodes, Reverse(ZeroOrOne(x))) == Denote(rows, nodes, ZeroOrOne(Reverse(x)))
    ensures Denote(rows, nodes, Reverse(Reverse(x))) == Denote(rows, nodes, x)
  {
    hide Plus, ZeroLength, Converse;
    var r := Denote(rows, nodes, x);
    PlusConverse(r);
    ConverseZero(nodes);
    ConverseTwice(r);
    ConverseUnion(Plus(r), ZeroLength(nodes));
    ConverseUnion(r, ZeroLength(nodes));
  }

  ghost predicate ClosurePlan(plan: Plan, e: PathExpr) {
    match Core(e)
    case OneOrMore(x) => Foldable(x) && (plan == PlusPlan(Operand(x, Parity(e)).0, Operand(x, Parity(e)).1))
    case ZeroOrMore(x) => Foldable(x) && (plan == StarPlan(Operand(x, Parity(e)).0, Operand(x, Parity(e)).1))
    case ZeroOrOne(x) => Foldable(x) && (plan == OptionalPlan(Operand(x, Parity(e)).0, Operand(x, Parity(e)).1))
    case _ => false
  }

  lemma ClosureMeaning(rows: set<Edge>, nodes: set<int>, plan: Plan, e: PathExpr)
    requires ClosurePlan(plan, e)
    ensures PlanRelation(rows, nodes, plan) == Denote(rows, nodes, e)
  {
    hide Operand, Foldable, StepOver, Plus, ZeroLength, Converse;
    var x, d := Core(e).inner, Parity(e);
    var r := Denote(rows, nodes, x);
    OperandMeaning(rows, nodes, x, d);
    CoreMeaning(rows, nodes, e);
    FlipPlus(d, r);
    FlipZero(d, nodes);
    FlipUnion(d, Plus(r), ZeroLength(nodes));
    FlipUnion(d, r, ZeroLength(nodes));
  }

  lemma ClosureCompiles(plan: Plan, subject: Endpoint, e: PathExpr, obj: Endpoint)
    requires ClosurePlan(plan, e)
    ensures Compiles(plan, subject, e, obj)
  {
    assert !plan.Lower?;
    hide ClosurePlan, PlanRelation, Denote;
    forall rows, nodes, binding
      ensures PlanHolds(rows, nodes, plan, subject, obj, binding) <==> PathHolds(rows, nodes, e, subject, obj, binding)
    {
      ClosureMeaning(rows, nodes, plan, e);
    }
  }

  lemma AlternationCompiles(plan: Plan, subject: Endpoint, e: PathExpr, obj: Endpoint)
    requires Core(e).Alternative? && Uniform(Core(e))
    requires plan == AlternationPlan(Names(Core(e)), Turn(Parity(e), Parity(Arms(Core(e))[0])))
    ensures Compiles(plan, subject, e, obj)
  {
    var c, d := Core(e), Parity(Arms(Core(e))[0]);
    forall rows, nodes, binding
      ensures PlanHolds(rows, nodes, plan, subject, obj, binding) <==> PathHolds(rows, nodes, e, subject, obj, binding)
    {
      ArmsMeaning(rows, nodes, c, d);
      CoreMeaning(rows, nodes, e);
      FlipTwice(Parity(e), d, StepOver(rows, Names(c)));
    }
  }

  lemma LowerCompiles(subject: Endpoint, e: PathExpr, obj: Endpoint)
    requires Plain(e)
    ensures Compiles(if Parity(e) then Lower(obj, Core(e).iri, subject) else Lower(subject, Core(e).iri, obj), subject, e, obj)
  {
    var plan := if Parity(e) then Lower(obj, Core(e).iri, subject) else Lower(subject, Core(e).iri, obj);
    forall rows, nodes, binding
      ensures PlanHolds(rows, nodes, plan, subject, obj, binding) <==> PathHolds(rows, nodes, e, subject, obj, binding)
    {
      CoreMeaning(rows, nodes, e);
      var r := StepOver(rows, [Core(e).iri]);
      assert Denote(rows, nodes, Core(e)) == r;
      var x, y := Value(binding, subject), Value(binding, obj);
      assert Pair(x, y) in Converse(r) <==> Pair(y, x) in r;
    }
  }

  // ----- what the gate leaves out -----

  /** The gate is syntactic: `(^(a|b))+` is refused although it has the meaning of the accepted
      `^((a|b)+)`. */
  lemma GateIsSyntactic(rows: set<Edge>, nodes: set<int>, a: string, b: string)
    ensures var x := Alternative(Named(a), Named(b));
      && !IsSupported(OneOrMore(Reverse(x))) && IsSupported(Reverse(OneOrMore(x)))
      && Denote(rows, nodes, OneOrMore(Reverse(x))) == Denote(rows, nodes, Reverse(OneOrMore(x)))
  {
    var x := Alternative(Named(a), Named(b));
    hide Denote;
    assert Arms(x.left) == [Named(a)] && Arms(x.right) == [Named(b)];
    assert Core(x) == x && Core(Reverse(x)) == x;
    assert Core(Reverse(OneOrMore(x))) == OneOrMore(x);
    assert Uniform(x);
    ExecutableIsSupported(OneOrMore(Reverse(x)));
    ExecutableIsSupported(Reverse(OneOrMore(x)));
    InverseMovesIn(rows, nodes, x);
  }

  /** Some arm is a predicate read forwards and another one read backwards. */
  predicate Mixed(e: PathExpr) {
    && (forall a :: a in Arms(e) ==> Plain(a))
    && (exists a :: a in Arms(e) && !Parity(a)) && (exists b :: b in Arms(e) && Parity(b))
  }

  /** Two edges that do not meet, of a forward and of a backward arm. */
  function TwoEdges(p: string, q: string): set<Edge> {
    {Edge(1, p, 2), Edge(3, q, 4)}
  }

  lemma {:induction false} ArmsUnion(rows: set<Edge>, nodes: set<int>, e: PathExpr, x: Pair)
    ensures x in Denote(rows, nodes, e) <==> exists a :: a in Arms(e) && x in Denote(rows, nodes, a)
  {
    if e.Alternative? {
      ArmsUnion(rows, nodes, e.left, x);
      ArmsUnion(rows, nodes, e.right, x);
      if a :| a in Arms(e.left) && x in Denote(rows, nodes, a) { assert a in Arms(e); }
      if a :| a in Arms(e.right) && x in Denote(rows, nodes, a) { assert a in Arms(e); }
    } else {
      assert e in Arms(e);
    }
  }

  lemma PlainMeaning(rows: set<Edge>, nodes: set<int>, e: PathExpr)
    requires Plain(e)
    ensures Denote(rows, nodes, e) == Flip(Parity(e), StepOver(rows, [Core(e).iri]))
  {
    CoreMeaning(rows, nodes, e);
    assert Denote(rows, nodes, Core(e)) == StepOver(rows, [Core(e).iri]);
  }

  /** A flag per arm would be needed for mixed directions: whenever an alternation of plain arms mixes
      them, there is a graph over which no set of predicates, read in one direction, gives its meaning. */
  lemma MixedDirectionsNeedTwoFlags(e: PathExpr) returns (rows: set<Edge>)
    requires e.Alternative? && Mixed(e)
    ensures !IsSupported(e) && forall d, iris, nodes :: Denote(rows, nodes, e) != Flip(d, StepOver(rows, iris))
  {
    ExecutableIsSupported(e);
    var a :| a in Arms(e) && !Parity(a);
    var b :| b in Arms(e) && Parity(b);
    var p, q := Core(a).iri, Core(b).iri;
    rows := TwoEdges(p, q);
    assert Edge(1, p, 2) in rows && Edge(3, q, 4) in rows;
    forall d, iris, nodes: set<int> ensures Denote(rows, nodes, e) != Flip(d, StepOver(rows, iris)) {
      hide Denote;
      PlainMeaning(rows, nodes, a);
      PlainMeaning(rows, nodes, b);
      ArmsUnion(rows, nodes, e, Pair(1, 2));
      ArmsUnion(rows, nodes, e, Pair(4, 3));
      assert Pair(1, 2) in StepOver(rows, [p]) && Pair(3, 4) in StepOver(rows, [q]);
      assert Pair(1, 2) in Denote(rows, nodes, e) && Pair(4, 3) in Denote(rows, nodes, e);
      assert Pair(2, 1) !in StepOver(rows, iris) && Pair(4, 3) !in StepOver(rows, iris);
    }
  }
}
