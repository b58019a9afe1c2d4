/** The shape in which the parser leaves a rule, and with that, which variables are uses: what an accepted
    rule binds, and exactly when a rule is refused. */
module VariableUses {
  import opened LhsNode
  import opened VariableAnalysis
  import opened VariableScope
  import opened VariableTypes

  // ----- the shape of a rule -----

  ghost predicate Field(f: Node)
    requires Linked(f)
  {
    && !f.multifieldSlot && (f.kind == Variable || f.kind == Other)
    && f.expression == null && f.secondaryExpression == null && Ors(f.bottom)
  }

  ghost predicate Group(f: Node?)
    requires Linked(f)
    decreases Height(f)
  {
    f == null || (Field(f) && Group(f.right))
  }

  /** Fields, and multifield slots with fields below them. */
  ghost predicate Pattern(f: Node?)
    requires Linked(f)
    decreases Height(f)
  {
    f == null ||
    (&& (if f.multifieldSlot
         then f.kind == Other && f.expression == null && f.secondaryExpression == null && Group(f.bottom)
         else Field(f))
     && Pattern(f.right))
  }

  ghost predicate Condition(ce: Node)
    requires Linked(ce)
  {
    && !ce.multifieldSlot && Expression(ce.expression) && Expression(ce.secondaryExpression)
    && if ce.kind == PatternCE then Pattern(ce.right)
       else ce.kind == TestCE && ce.right == null && ce.secondaryExpression == null
  }

  ghost predicate Rule(ce: Node?)
    requires Linked(ce)
    decreases Height(ce)
  {
    ce == null || (Condition(ce) && Rule(ce.bottom))
  }

  // ----- its fields, in the order of the document -----

  ghost function Grouped(f: Node?): seq<Node>
    requires Linked(f)
    decreases Height(f)
  {
    if f == null then [] else [f] + Grouped(f.right)
  }

  ghost function Fields(f: Node?): seq<Node>
    requires Linked(f)
    decreases Height(f)
  {
    if f == null then []
    else (if f.multifieldSlot then Grouped(f.bottom) else [f]) + Fields(f.right)
  }

  ghost function AllFields(ce: Node?): set<Node>
    requires Linked(ce)
    decreases Height(ce)
  {
    if ce == null then {} else (set f | f in Fields(ce.right)) + AllFields(ce.bottom)
  }

  ghost function FieldsOf(visits: seq<Visit>): seq<Node> {
    seq(|visits|, i requires 0 <= i < |visits| => visits[i].field)
  }

  /** Every multifield slot of a pattern has fields. */
  ghost predicate NoneEmpty(f: Node?)
    requires Linked(f)
    decreases Height(f)
  {
    f == null || ((f.multifieldSlot ==> f.bottom != null) && NoneEmpty(f.right))
  }

  lemma FieldsOfRest(visit: Visit, visits: seq<Visit>)
    ensures FieldsOf([visit] + visits) == [visit.field] + FieldsOf(visits)
  {
  }

  /** The walk over a pattern without empty slots visits its fields in the order of the document. */
  lemma {:induction false} FieldsAreVisitedInOrder(field: Node?)
    requires Linked(field) && Pattern(field) && NoneEmpty(field)
    ensures FieldsOf(Visits(field, null)) == Fields(field)
    decreases 2 * Height(field), Height(field)
  {
    if field != null {
      if field.multifieldSlot {
        GroupIsVisitedInOrder(field.bottom, field);
      } else {
        FieldsAreVisitedInOrder(field.right);
        FieldsOfRest(Visit(field, null), Visits(field.right, null));
      }
    }
  }

  lemma {:induction false} GroupIsVisitedInOrder(field: Node, header: Node)
    requires Walkable(field, header) && Group(field) && Pattern(header.right) && NoneEmpty(header.right)
    ensures FieldsOf(Visits(field, header)) == Grouped(field) + Fields(header.right)
    decreases 2 * Height(header) - 1, Height(field)
  {
    hide FieldsOf, Fields, Pattern, NoneEmpty, Ors;
    if field.right == null {
      FieldsAreVisitedInOrder(header.right);
      FieldsOfRest(Visit(field, header), Visits(header.right, null));
    } else {
      GroupIsVisitedInOrder(field.right, header);
      FieldsOfRest(Visit(field, header), Visits(field.right, header));
    }
  }

  // ----- every variable is a field or a use -----

  lemma IntoSlot(slot: Node, header: Node?)
    requires Walkable(slot, header) && Pattern(slot) && slot.multifieldSlot && slot.bottom != null
    ensures Walkable(slot.bottom, slot) && Visits(slot, header) == Visits(slot.bottom, slot)
    ensures forall f :: f in Grouped(slot.bottom) || f in Fields(slot.right) ==> f in Fields(slot)
  {
  }

  /** What the walk comes to are fields. */
  lemma {:induction false} TopIsField(field: Node?, header: Node?, i: nat, all: seq<Node>)
    requires Walkable(field, header) && Pattern(field) && i < |Visits(field, header)|
    requires forall f :: f in Fields(field) ==> f in all
    requires header != null ==> Pattern(header.right) && forall f :: f in Fields(header.right) ==> f in all
    ensures var f := Visits(field, header)[i].field; f in all && Linked(f) && Field(f)
    decreases if header == null then 2 * Height(field) else 2 * Height(header) - 1, Height(field)
  {
    hide Field;
    if field.multifieldSlot {
      if field.bottom == null {
        TopIsField(field.right, field, i, all);
      } else {
        IntoSlot(field, header);
        GroupedIsField(field.bottom, field, i, all);
      }
    } else if i > 0 {
      if field.right == null && header != null {
        TopIsField(header.right, null, i - 1, all);
      } else {
        TopIsField(field.right, header, i - 1, all);
      }
    } else {
      assert field in Fields(field);
    }
  }

  lemma {:induction false} GroupedIsField(field: Node, header: Node, i: nat, all: seq<Node>)
    requires Walkable(field, header) && Group(field) && Pattern(header.right) && i < |Visits(field, header)|
    requires forall f :: f in Grouped(field) ==> f in all
    requires forall f :: f in Fields(header.right) ==> f in all
    ensures var f := Visits(field, header)[i].field; f in all && Linked(f) && Field(f)
    decreases 2 * Height(header) - 1, Height(field)
  {
    assert field in Grouped(field);
    if i > 0 {
      if field.right == null {
        TopIsField(header.right, null, i - 1, all);
      } else {
        GroupedIsField(field.right, header, i - 1, all);
      }
    }
  }

  /** Every variable of a pattern is in a field that the walk comes to. */
  lemma {:induction false} TopHasPlace(field: Node?, header: Node?, o: Node) returns (i: nat)
    requires Walkable(field, header) && Pattern(field) && o in Whole(field) && o.kind != Other
    ensures i < |Visits(field, header)| && o in Region(Visits(field, header)[i])
    decreases if header == null then 2 * Height(field) else 2 * Height(header) - 1, Height(field)
  {
    if field.multifieldSlot {
      if field.bottom == null {
        i := TopHasPlace(field.right, field, o);
      } else {
        IntoSlot(field, header);
        i := GroupedHasPlace(field.bottom, field, o);
      }
    } else if o in Whole(field.right) {
      i := TopHasPlace(field.right, header, o);
      i := i + 1;
    } else {
      i := 0;
    }
  }

  lemma {:induction false} GroupedHasPlace(field: Node, header: Node, o: Node) returns (i: nat)
    requires Walkable(field, header) && Group(field) && Pattern(header.right)
    requires (o in Whole(field) || o in Whole(header.right)) && o.kind != Other
    ensures i < |Visits(field, header)| && o in Region(Visits(field, header)[i])
    decreases 2 * Height(header) - 1, Height(field)
  {
    if o == field || o in Whole(field.bottom) {
      i := 0;
    } else if field.right == null {
      i := TopHasPlace(header.right, null, o);
      i := i + 1;
    } else {
      i := GroupedHasPlace(field.right, header, o);
      i := i + 1;
    }
  }

  lemma {:induction false} GroupedApart(f: Node?, g: Node, o: Node)
    requires Linked(f) && Tree(f) && g in Grouped(f) && Linked(g) && o in Whole(g.bottom)
    ensures g in Whole(f) && o in Whole(f) && o !in Grouped(f)
    decreases Height(f)
  {
    GroupedInWhole(f.right);
    if g != f { GroupedApart(f.right, g, o); }
  }

  lemma {:induction false} GroupedInWhole(f: Node?)
    requires Linked(f)
    ensures forall g :: g in Grouped(f) ==> g in Whole(f)
    decreases Height(f)
  {
    if f != null { GroupedInWhole(f.right); }
  }

  lemma {:induction false} FieldsInWhole(f: Node?)
    requires Linked(f)
    ensures forall g :: g in Fields(f) ==> g in Whole(f)
    decreases Height(f)
  {
    if f != null {
      FieldsInWhole(f.right);
      GroupedInWhole(f.bottom);
    }
  }

  /** No field is among the constraints of a field. */
  lemma {:induction false} ConstraintsApart(f: Node?, g: Node, o: Node)
    requires Linked(f) && Tree(f) && g in Fields(f) && Linked(g) && o in Whole(g.bottom)
    ensures o in Whole(f) && o !in Fields(f)
    decreases Height(f)
  {
    hide Tree;
    TreeParts(f);
    FieldsInWhole(f.right);
    GroupedInWhole(f.bottom);
    if g in Fields(f.right) {
      ConstraintsApart(f.right, g, o);
    } else if f.multifieldSlot {
      GroupedApart(f.bottom, g, o);
    }
  }

  lemma TreeParts(f: Node)
    requires Linked(f) && Tree(f)
    ensures Tree(f.right) && Tree(f.bottom) && Whole(f.right) !! Whole(f.bottom)
    ensures f !in Whole(f.right) && f !in Whole(f.bottom) && Whole(f.right) <= Whole(f) && Whole(f.bottom) <= Whole(f)
  {
  }

  /** What is checked at a place: the variables there, but for the field itself. */
  lemma UsesAre(ce: Node, at: nat, o: Node)
    requires Linked(ce) && Tree(ce) && Shaped(ce) && Condition(ce)
    ensures o in UsesAt(ce, at) <==> Sits(o, ce, at) && o.kind == Variable && o !in Fields(ce.right)
  {
    hide Tree, Shaped, Fields, Whole, Visits, ExpressionVariables, OrVariables, Pattern, Expression, Ors;
    HeadFirst(ce);
    PartsAreApart(ce);
    FieldsInWhole(ce.right);
    ExpressionVariablesAreAll(ce.expression);
    ExpressionVariablesAreAll(ce.secondaryExpression);
    if ce.kind == PatternCE {
      if 0 < at < |Visits(ce, null)| {
        var f := Visits(ce.right, null)[at - 1].field;
        TopIsField(ce.right, null, at - 1, Fields(ce.right));
        OrVariablesAreAll(f.bottom);
        if o in Whole(f.bottom) { ConstraintsApart(ce.right, f, o); }
      }
    } else {
      NoVisits();
    }
  }

  lemma NoVisits()
    ensures Visits(null, null) == [] && ExpressionVariables(null) == {} && Whole(null) == {}
  {
  }

  lemma {:induction false} RuleAt(first: Node?, i: nat)
    requires Linked(first) && Rule(first) && i < |CEs(first)| && Linked(CEs(first)[i])
    ensures Condition(CEs(first)[i])
    decreases i
  {
    if i > 0 { RuleAt(first.bottom, i - 1); }
  }

  lemma {:induction false} AllFieldsInWhole(first: Node?)
    requires Linked(first)
    ensures AllFields(first) <= Whole(first)
    decreases Height(first)
  {
    if first != null {
      FieldsInWhole(first.right);
      AllFieldsInWhole(first.bottom);
    }
  }

  /** A node of a CE is a field of the rule only as a field of that CE. */
  lemma {:induction false} FieldsOfCE(first: Node?, i: nat, o: Node)
    requires Linked(first) && Tree(first) && i < |CEs(first)| && Linked(CEs(first)[i]) && o in Own(CEs(first)[i])
    ensures o in AllFields(first) <==> o in Fields(CEs(first)[i].right)
    decreases i
  {
    hide Tree, Own, Fields;
    PartsAreApart(first);
    FieldsInWhole(first.right);
    AllFieldsInWhole(first.bottom);
    RightIsOwn(first);
    if i > 0 {
      Tail(first.bottom, i - 1);
      OwnInWhole(CEs(first)[i], o);
      FieldsOfCE(first.bottom, i - 1, o);
    }
  }

  lemma RightIsOwn(ce: Node)
    requires Linked(ce)
    ensures Whole(ce.right) <= Own(ce)
  {
  }

  lemma {:induction false} VariableHasPlace(first: Node?, o: Node) returns (place: Place)
    requires Linked(first) && Rule(first) && AllParsed(first) && o in Whole(first) && o.kind == Variable
    ensures At(o, first, place)
    decreases Height(first)
  {
    hide Visits, NoneBehind, Region, Pattern, Expression, NoCEs;
    HeadFirst(first);
    if o in Whole(first.right) {
      if first.kind == TestCE { NoVisits(); }
      var i := TopHasPlace(first.right, null, o);
      place := Place(0, i + 1);
    } else if o in Tests(first) {
      place := Place(0, |Visits(first, null)|);
    } else {
      place := VariableHasPlace(first.bottom, o);
      assert CEs(first) == [first] + CEs(first.bottom);
      place := Place(place.ce + 1, place.field);
    }
  }

  /** A variable of a rule that is no field is a use at its place. */
  lemma IsUse(first: Node?, o: Node, place: Place)
    requires Linked(first) && Tree(first) && Rule(first) && AllParsed(first) && At(o, first, place)
    ensures o in UsesAt(CEs(first)[place.ce], place.field) <==> o.kind == Variable && o !in AllFields(first)
  {
    hide Rule, Condition, Shaped, NoneBehind, UsesAt, Sits, Fields, AllFields, Own, CEs, Visits;
    var ce := CEs(first)[place.ce];
    Tail(first, place.ce);
    RuleAt(first, place.ce);
    SitsInOwn(o, ce, place.field);
    FieldsOfCE(first, place.ce, o);
    UsesAre(ce, place.field, o);
  }

  // ----- the main results -----

  /** An accepted rule leaves no variable unbound, in whatever constraint, test or argument it stands; only the
      fields themselves need no binding. */
  lemma AcceptedBindsEveryUse(v: References, first: Node?, o: Node)
    requires Linked(first) && Fresh(v, first) && Rule(first) && Analysed(v, first).Some?
    requires o in Whole(first) && o.kind == Variable && o !in AllFields(first)
    ensures o in Analysed(v, first).value && Analysed(v, first).value[o] != null
  {
    hide Tree, Rule, AllParsed, Analysed, CEs, Sits, UsesAt, AllFields;
    var place := VariableHasPlace(first, o);
    IsUse(first, o, place);
    AnalysedBinds(v, first, place.ce, place.field, o);
  }

  /** A variable that is no field, with no binding of its name in whose scope it stands. */
  ghost predicate Unbound(first: Node?, o: Node, place: Place)
    requires Linked(first)
  {
    && At(o, first, place) && o.kind == Variable && o !in AllFields(first)
    && forall k :: !Candidate(first, k, o, place)
  }

  /** An address of a pattern whose name a binding above has in its scope. */
  ghost predicate Rebound(first: Node?, i: nat, k: nat)
    requires Linked(first)
  {
    && i < |CEs(first)| && CEs(first)[i].kind == PatternCE && CEs(first)[i].value.Some?
    && Candidate(first, k, CEs(first)[i], Place(i, 0))
  }

  lemma UnboundIsUnboundAt(first: Node?, o: Node, place: Place)
    requires Linked(first) && Tree(first) && Rule(first) && AllParsed(first)
    ensures Unbound(first, o, place) <==> UnboundAt(first, place, o)
  {
    hide Tree, Rule, Parsed, CEs, Sits, UsesAt, AllFields, Candidate;
    if At(o, first, place) {
      IsUse(first, o, place);
    } else if UnboundAt(first, place, o) {
      Tail(first, place.ce);
      UsesSit(CEs(first)[place.ce], place.field, o);
    }
  }

  lemma {:induction false} ConstraintsAreFlat(n: Node?)
    requires Linked(n)
    ensures Ors(n) || Ands(n) ==> NoSlots(n)
    decreases Height(n)
  {
    if n != null {
      ConstraintsAreFlat(n.right);
      ConstraintsAreFlat(n.bottom);
    }
  }

  lemma {:induction false} PatternIsFlat(f: Node?)
    requires Linked(f)
    ensures Group(f) ==> NoSlots(f)
    ensures Pattern(f) ==> Flat(f)
    decreases Height(f)
  {
    if f != null {
      ConstraintsAreFlat(f.bottom);
      PatternIsFlat(f.right);
      PatternIsFlat(f.bottom);
    }
  }

  lemma {:induction false} RuleIsFlat(first: Node?)
    requires Linked(first) && Rule(first)
    ensures AllFlat(first)
    decreases Height(first)
  {
    if first != null {
      PatternIsFlat(first.right);
      RuleIsFlat(first.bottom);
    }
  }

  /** A rule is refused exactly when a variable has no binding in scope, the address of a pattern has one, or a
      name is used with another type in the scope of a binding. */
  lemma RefusedExactlyWhen(v: References, first: Node?)
    requires Linked(first) && Fresh(v, first) && Typed(first) && Rule(first)
    ensures Analysed(v, first).None? <==>
      || (exists o, place :: Unbound(first, o, place))
      || (exists i, k :: Rebound(first, i, k))
      || (exists k, o, place :: MixedAt(first, k, o, place))
  {
    hide Tree, AllParsed, Rule, Analysed, Unbound, UnboundAt, Candidate, MixedAt, Linked, Typed, AllFlat, CEs;
    RuleIsFlat(first);
    RefusedForOneOf(v, first);
    forall o, place ensures Unbound(first, o, place) <==> UnboundAt(first, place, o) {
      UnboundIsUnboundAt(first, o, place);
    }
    if i: nat :| ReboundAt(first, i) {
      assert i < |CEs(first)|;
      var k: nat :| Candidate(first, k, CEs(first)[i], Place(i, 0));
      assert Rebound(first, i, k);
    }
    if i: nat, k: nat :| Rebound(first, i, k) { assert ReboundAt(first, i); }
  }
}
