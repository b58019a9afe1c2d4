/** The analysis of a rule's variables: each binding is handed on to the nodes in its scope by
    overwriting what they refer to, and every use is checked to be bound. */
module VariableAnalysis {
  import opened LhsNode
  import opened Wrappers

  // ----- the variables that must be bound -----

  ghost function ExpressionVariables(e: Node?): set<Node>
    requires Linked(e)
    decreases Height(e)
  {
    if e == null then {}
    else
      (if e.kind == Variable then {e}
       else if e.kind == FunctionCall then ExpressionVariables(e.bottom)
       else {})
      + ExpressionVariables(e.right)
  }

  /** The uses in constraints that are joined by &. */
  ghost function AndVariables(field: Node?): set<Node>
    requires Linked(field)
    decreases Height(field)
  {
    if field == null then {}
    else
      (if field.kind == Variable then {field}
       else if field.kind == Predicate then ExpressionVariables(field.expression)
       else {})
      + AndVariables(field.right)
  }

  /** The uses in constraints that are joined by |. */
  ghost function OrVariables(field: Node?): set<Node>
    requires Linked(field)
    decreases Height(field)
  {
    if field == null then {} else AndVariables(field) + OrVariables(field.bottom)
  }

  /** The uses in a field, or in all fields that are grouped in a multifield slot. */
  ghost function SlotVariables(slot: Node): set<Node>
    requires Linked(slot)
    decreases Height(slot), 0
  {
    if slot.multifieldSlot then GroupVariables(slot.bottom) else OrVariables(slot.bottom)
  }

  ghost function GroupVariables(field: Node?): set<Node>
    requires Linked(field)
    decreases Height(field), 1
  {
    if field == null then {} else SlotVariables(field) + GroupVariables(field.right)
  }

  ghost predicate Bound(uses: set<Node>)
    reads uses
  {
    forall n :: n in uses ==> n.referringNode != null
  }

  // ----- which variables these are -----

  /** An expression, as the parser leaves it: calls with their arguments below them, variables and constants. */
  ghost predicate Expression(e: Node?)
    requires Linked(e)
    decreases Height(e)
  {
    e == null ||
    (&& e.expression == null && e.secondaryExpression == null
     && (e.kind == FunctionCall || ((e.kind == Variable || e.kind == Other) && e.bottom == null))
     && Expression(e.right) && Expression(e.bottom))
  }

  /** One constraint: a variable, a predicate or a constant. */
  ghost predicate Constraint(n: Node)
    requires Linked(n)
  {
    && n.secondaryExpression == null && !n.multifieldSlot
    && (n.kind == Variable || n.kind == Predicate || n.kind == Other)
    && if n.kind == Predicate then Expression(n.expression) else n.expression == null
  }

  ghost predicate Ands(n: Node?)
    requires Linked(n)
    decreases Height(n)
  {
    n == null || (Constraint(n) && n.bottom == null && Ands(n.right))
  }

  /** The constraints of a field: alternatives below each other, each with what is joined to it right of it. */
  ghost predicate Ors(n: Node?)
    requires Linked(n)
    decreases Height(n)
  {
    n == null || (Constraint(n) && Ands(n.right) && Ors(n.bottom))
  }

  ghost function VariablesIn(n: Node?): set<Node>
    requires Linked(n)
  {
    set o | o in Whole(n) && o.kind == Variable
  }

  /** Every variable of an expression is a use, however deep the calls are nested. */
  lemma {:induction false} ExpressionVariablesAreAll(e: Node?)
    requires Linked(e) && Expression(e)
    ensures ExpressionVariables(e) == VariablesIn(e)
    decreases Height(e)
  {
    if e != null {
      ExpressionVariablesAreAll(e.right);
      ExpressionVariablesAreAll(e.bottom);
    }
  }

  lemma {:induction false} AndVariablesAreAll(n: Node?)
    requires Linked(n) && Ands(n)
    ensures AndVariables(n) == VariablesIn(n)
    decreases Height(n)
  {
    if n != null {
      AndVariablesAreAll(n.right);
      if n.kind == Predicate { ExpressionVariablesAreAll(n.expression); }
    }
  }

  /** And so is every variable of a field's constraints. */
  lemma {:induction false} OrVariablesAreAll(n: Node?)
    requires Linked(n) && Ors(n)
    ensures OrVariables(n) == VariablesIn(n)
    decreases Height(n)
  {
    if n != null {
      AndVariablesAreAll(n.right);
      if n.kind == Predicate { ExpressionVariablesAreAll(n.expression); }
      OrVariablesAreAll(n.bottom);
    }
  }

  // ----- checking them -----

  /** The first variable of an expression that nothing binds. */
  method CheckExpression(expression: Node?) returns (rv: Node?)
    requires Linked(expression)
    ensures rv == null <==> Bound(ExpressionVariables(expression))
    ensures rv != null ==> rv in ExpressionVariables(expression) && rv.referringNode == null
    ensures Expression(expression) ==>
      (rv == null <==> forall n :: n in Whole(expression) && n.kind == Variable ==> n.referringNode != null)
    decreases Height(expression)
  {
    hide Expression, Whole;
    if Expression(expression) { ExpressionVariablesAreAll(expression); }
    rv := null;
    var exprPtr := expression;
    ghost var passed: set<Node> := {};
    while exprPtr != null
      invariant Linked(exprPtr) && Height(exprPtr) <= Height(expression)
      invariant passed + ExpressionVariables(exprPtr) == ExpressionVariables(expression)
      invariant Bound(passed) && rv == null
      decreases Height(exprPtr)
    {
      ghost var here: Node := exprPtr;
      if exprPtr.kind == Variable {
        if exprPtr.referringNode == null { return exprPtr; }
        passed := passed + {here};
      } else if exprPtr.kind == FunctionCall && exprPtr.bottom != null {
        rv := CheckExpression(exprPtr.bottom);
        if rv != null { return; }
        passed := passed + ExpressionVariables(exprPtr.bottom);
      }
      exprPtr := exprPtr.right;
    }
  }

  method UnboundInAnds(field: Node?) returns (unbound: bool)
    requires Linked(field)
    ensures unbound <==> !Bound(AndVariables(field))
  {
    var andField := field;
    ghost var passed: set<Node> := {};
    while andField != null
      invariant Linked(andField) && Bound(passed)
      invariant passed + AndVariables(andField) == AndVariables(field)
      decreases Height(andField)
    {
      ghost var here: Node := andField;
      if andField.kind == Variable && andField.referringNode == null {
        assert andField in AndVariables(field);
        return true;
      } else if andField.kind == Predicate {
        var rv := CheckExpression(andField.expression);
        if rv != null {
          assert rv in AndVariables(field);
          return true;
        }
        passed := passed + ExpressionVariables(andField.expression);
      } else if andField.kind == Variable {
        passed := passed + {here};
      }
      andField := andField.right;
    }
    return false;
  }

  method UnboundInOrs(field: Node?) returns (unbound: bool)
    requires Linked(field)
    ensures unbound <==> !Bound(OrVariables(field))
  {
    var orField := field;
    ghost var passed: set<Node> := {};
    while orField != null
      invariant Linked(orField) && Bound(passed)
      invariant passed + OrVariables(orField) == OrVariables(field)
      decreases Height(orField)
    {
      unbound := UnboundInAnds(orField);
      if unbound {
        assert AndVariables(orField) <= OrVariables(field);
        return;
      }
      passed := passed + AndVariables(orField);
      orField := orField.bottom;
    }
    return false;
  }

  method UnboundVariablesInPattern(slot: Node) returns (unbound: bool)
    requires Linked(slot)
    ensures unbound <==> !Bound(SlotVariables(slot))
    ensures !slot.multifieldSlot && Ors(slot.bottom) ==>
      (unbound <==> exists n :: n in Whole(slot.bottom) && n.kind == Variable && n.referringNode == null)
    decreases Height(slot)
  {
    hide Ors, Whole;
    if Ors(slot.bottom) { OrVariablesAreAll(slot.bottom); }
    if !slot.multifieldSlot {
      unbound := UnboundInOrs(slot.bottom);
      return;
    }
    var field := slot.bottom;
    ghost var passed: set<Node> := {};
    while field != null
      invariant Linked(field) && Height(field) < Height(slot) && Bound(passed)
      invariant passed + GroupVariables(field) == SlotVariables(slot)
      decreases Height(field)
    {
      unbound := UnboundVariablesInPattern(field);
      if unbound {
        assert SlotVariables(field) <= SlotVariables(slot);
        return;
      }
      passed := passed + SlotVariables(field);
      field := field.right;
    }
    return false;
  }

  // ----- one pattern -----

  /** A field that the walk over a pattern comes to, with the multifield slot it goes by. */
  datatype Visit = Visit(field: Node, header: Node?)

  ghost predicate Walkable(field: Node?, header: Node?) {
    Linked(field) && Linked(header) && (header != null ==> Height(field) < Height(header))
  }

  ghost predicate Visitable(visits: seq<Visit>) {
    forall i :: 0 <= i < |visits| ==> Linked(visits[i].field) && Linked(visits[i].header)
  }

  /** The fields in the order of the walk.  A slot without fields stays the header of what follows it,
      and at the end of the pattern the walk then goes back to it. */
  ghost function Visits(field: Node?, header: Node?): (visits: seq<Visit>)
    requires Walkable(field, header)
    ensures Visitable(visits)
    decreases if header == null then 2 * Height(field) else 2 * Height(header) - 1, Height(field)
  {
    if field == null then []
    else if field.multifieldSlot && field.bottom == null then Visits(field.right, field)
    else
      var (f, h) := if field.multifieldSlot then (field.bottom, field) else (field, header);
      assert Linked(f);
      [Visit(f, h)] + if f.right == null && h != null then Visits(h.right, null) else Visits(f.right, h)
  }

  predicate Binds(n: Node) {
    n.kind == Variable || (n.kind == PatternCE && n.value.Some?)
  }

  /** Bindings leave a CE unless it is a not, an exists or the last of a nand. */
  predicate Passes(head: Node) {
    head.IsCE() && !head.negated && !head.existsCE && head.beginNandDepth <= head.endNandDepth
  }

  ghost function OwnReach(head: Node, field: Node): set<Node>
    requires Linked(field)
  {
    if field.kind == PatternCE then {} else Reach(field.bottom, head.beginNandDepth)
  }

  ghost function DriverReach(head: Node, visit: Visit): set<Node>
    requires Linked(head) && Linked(visit.field) && Linked(visit.header)
  {
    (if visit.header == null then {} else Reach(visit.header.right, head.beginNandDepth))
    + Reach(visit.field.right, head.beginNandDepth)
    + Reach(head.expression, head.beginNandDepth) + Reach(head.secondaryExpression, head.beginNandDepth)
    + if Passes(head) then Reach(head.bottom, head.beginNandDepth) else {}
  }

  ghost predicate Fits(head: Node, visit: Visit, all: set<Node>) {
    && Linked(head) && Linked(visit.field) && Linked(visit.header)
    && Whole(head) <= all && Whole(visit.field) <= all && Whole(visit.header) <= all
    && Typed(head) && Typed(visit.field) && Typed(visit.header)
  }

  /** The nodes on which the type of a binding is compared. */
  ghost function Compared(head: Node, visit: Visit): set<Node>
    requires Linked(head) && Linked(visit.field) && Linked(visit.header)
  {
    (if visit.header == null then {} else Strict(visit.header.right, head.beginNandDepth))
    + Strict(visit.field.right, head.beginNandDepth)
    + if Passes(head) then Strict(head.bottom, head.beginNandDepth) else {}
  }

  /** The name of a binding is used with another type where the binding is handed to. */
  ghost predicate Mixes(head: Node, visit: Visit)
    requires Linked(head) && Linked(visit.field) && Linked(visit.header)
  {
    Clash(Compared(head, visit), visit.field.value, visit.field.Multi(), false)
  }

  lemma ReachesFit(head: Node, visit: Visit, all: set<Node>)
    requires Fits(head, visit, all)
    ensures OwnReach(head, visit.field) <= all && DriverReach(head, visit) <= all
  {
    hide Reach;
    var depth := head.beginNandDepth;
    ReachIsInWhole(visit.field.bottom, depth);
    ReachIsInWhole(visit.field.right, depth);
    if visit.header != null { ReachIsInWhole(visit.header.right, depth); }
    ReachIsInWhole(head.expression, depth);
    ReachIsInWhole(head.secondaryExpression, depth);
    ReachIsInWhole(head.bottom, depth);
  }

  method PropagateVariableDriver(head: Node, field: Node, header: Node?, ghost all: set<Node>) returns (mixed: bool)
    requires Fits(head, Visit(field, header), all)
    modifies all
    ensures mixed <==> Mixes(head, Visit(field, header))
    ensures !mixed ==> View(all) == Wrote(old(View(all)), DriverReach(head, Visit(field, header)), field.value, field)
  {
    hide View, Wrote, Whole, Reach, Strict, Clash;
    ReachesFit(head, Visit(field, header), all);
    var name, depth, multi := field.value, head.beginNandDepth, field.Multi();
    ghost var start, done := View(all), {};
    WroteNothing(start, name, field);
    ComparedParts(head, Visit(field, header));
    if header != null {
      mixed := PropagateVariableToNodes(header.right, name, field, multi, depth, false, all);
      if mixed { return; }
      done := Reach(header.right, depth);
    }
    mixed := PropagateVariableToNodes(field.right, name, field, multi, depth, false, all);
    if mixed { return; }
    WroteTwice(start, done, Reach(field.right, depth), name, field);
    done := done + Reach(field.right, depth);
    ExpressionsNeverClash(head.expression, depth, name, multi);
    mixed := PropagateVariableToNodes(head.expression, name, field, multi, depth, true, all);
    if mixed { return; }
    WroteTwice(start, done, Reach(head.expression, depth), name, field);
    done := done + Reach(head.expression, depth);
    ExpressionsNeverClash(head.secondaryExpression, depth, name, multi);
    mixed := PropagateVariableToNodes(head.secondaryExpression, name, field, multi, depth, true, all);
    if mixed { return; }
    WroteTwice(start, done, Reach(head.secondaryExpression, depth), name, field);
    done := done + Reach(head.secondaryExpression, depth);
    if Passes(head) {
      mixed := PropagateVariableToNodes(head.bottom, name, field, multi, depth, false, all);
      if mixed { return; }
      WroteTwice(start, done, Reach(head.bottom, depth), name, field);
      done := done + Reach(head.bottom, depth);
    }
    assert done == DriverReach(head, Visit(field, header));
  }

  lemma ComparedParts(head: Node, visit: Visit)
    requires Linked(head) && Linked(visit.field) && Linked(visit.header)
    ensures var name, multi, depth := visit.field.value, visit.field.Multi(), head.beginNandDepth;
      Mixes(head, visit) <==>
        || (visit.header != null && Clash(Strict(visit.header.right, depth), name, multi, false))
        || Clash(Strict(visit.field.right, depth), name, multi, false)
        || (Passes(head) && Clash(Strict(head.bottom, depth), name, multi, false))
  {
    hide Clash, Strict;
    var name, multi, depth := visit.field.value, visit.field.Multi(), head.beginNandDepth;
    var grouped := if visit.header == null then {} else Strict(visit.header.right, depth);
    var below := if Passes(head) then Strict(head.bottom, depth) else {};
    NoClash(name, multi, false);
    ClashOfParts(grouped, Strict(visit.field.right, depth), name, multi, false);
    ClashOfParts(grouped + Strict(visit.field.right, depth), below, name, multi, false);
  }

  // ----- what a pattern does to the references -----

  /** What the uses within a field see: its own binding has reached them. */
  ghost function Entered(v: References, head: Node, field: Node): References
    requires Linked(field)
  {
    if Binds(field) then Wrote(v, OwnReach(head, field), field.value, field) else v
  }

  ghost function Left(v: References, head: Node, visit: Visit): References
    requires Linked(head) && Linked(visit.field) && Linked(visit.header)
  {
    if Binds(visit.field) then Wrote(v, DriverReach(head, visit), visit.field.value, visit.field) else v
  }

  ghost predicate UnboundIn(v: References, uses: set<Node>) {
    exists n :: n in uses && n in v && v[n] == null
  }

  /** The uses that are checked with a field; the node of the whole pattern has none. */
  ghost function Uses(field: Node): set<Node>
    requires Linked(field)
  {
    if field.kind == PatternCE then {} else SlotVariables(field)
  }

  /** The references after the visits, unless one of them fails. */
  ghost function Visited(v: References, head: Node, visits: seq<Visit>): Option<References>
    requires Linked(head) && Visitable(visits)
  {
    if visits == [] then Some(v)
    else
      var entered := Entered(v, head, visits[0].field);
      if UnboundIn(entered, Uses(visits[0].field)) || (Binds(visits[0].field) && Mixes(head, visits[0])) then None
      else Visited(Left(entered, head, visits[0]), head, visits[1..])
  }

  lemma UnboundInView(all: set<Node>, uses: set<Node>)
    requires uses <= all
    ensures UnboundIn(View(all), uses) <==> !Bound(uses)
  {
    if !Bound(uses) {
      var n :| n in uses && n.referringNode == null;
      assert n in View(all);
    }
  }

  lemma {:induction false} ExpressionVariablesAreWhole(e: Node?)
    requires Linked(e)
    ensures ExpressionVariables(e) <= Whole(e)
    decreases Height(e)
  {
    if e != null {
      ExpressionVariablesAreWhole(e.bottom);
      ExpressionVariablesAreWhole(e.right);
    }
  }

  lemma {:induction false} AndVariablesAreWhole(field: Node?)
    requires Linked(field)
    ensures AndVariables(field) <= Whole(field)
    decreases Height(field)
  {
    if field != null {
      ExpressionVariablesAreWhole(field.expression);
      AndVariablesAreWhole(field.right);
    }
  }

  lemma {:induction false} OrVariablesAreWhole(field: Node?)
    requires Linked(field)
    ensures OrVariables(field) <= Whole(field)
    decreases Height(field)
  {
    if field != null {
      AndVariablesAreWhole(field);
      OrVariablesAreWhole(field.bottom);
    }
  }

  lemma {:induction false} SlotVariablesAreBelow(slot: Node)
    requires Linked(slot)
    ensures SlotVariables(slot) <= Whole(slot.bottom)
    decreases Height(slot), 0
  {
    OrVariablesAreWhole(slot.bottom);
    if slot.multifieldSlot { GroupVariablesAreWhole(slot.bottom); }
  }

  lemma {:induction false} GroupVariablesAreWhole(field: Node?)
    requires Linked(field)
    ensures GroupVariables(field) <= Whole(field)
    decreases Height(field), 1
  {
    if field != null {
      SlotVariablesAreBelow(field);
      GroupVariablesAreWhole(field.right);
    }
  }

  lemma UsesFit(field: Node, all: set<Node>)
    requires Linked(field) && Whole(field) <= all
    ensures Uses(field) <= all && SlotVariables(field) <= all
  {
    SlotVariablesAreBelow(field);
  }

  method ProcessField(field: Node, ghost all: set<Node>) returns (unbound: bool)
    requires Linked(field) && Whole(field) <= all
    ensures unbound <==> UnboundIn(View(all), Uses(field))
  {
    hide View, Whole;
    UsesFit(field, all);
    UnboundInView(all, Uses(field));
    if field.kind == PatternCE { return false; }
    unbound := UnboundVariablesInPattern(field);
  }

  method ProcessVariable(head: Node, field: Node, header: Node?, ghost all: set<Node>) returns (error: bool)
    requires Fits(head, Visit(field, header), all) && Binds(field)
    modifies all
    ensures error <==>
      UnboundIn(Entered(old(View(all)), head, field), Uses(field)) || Mixes(head, Visit(field, header))
    ensures !error ==> View(all) == Left(Entered(old(View(all)), head, field), head, Visit(field, header))
  {
    hide View, Wrote, Whole, Reach, DriverReach, UnboundIn, Mixes, Clash;
    ReachesFit(head, Visit(field, header), all);
    if field.kind != PatternCE {
      assert !Clash(Strict(field.bottom, head.beginNandDepth), field.value, field.Multi(), false);
      var unused := PropagateVariableToNodes(field.bottom, field.value, field, field.Multi(), head.beginNandDepth,
                                             false, all);
      error := ProcessField(field, all);
      if error { return; }
    } else {
      WroteNothing(View(all), field.value, field);
      NothingUnbound(View(all));
    }
    error := PropagateVariableDriver(head, field, header, all);
  }

  lemma NothingUnbound(v: References)
    ensures !UnboundIn(v, {})
  {
  }

  method Process(head: Node, field: Node, header: Node?, ghost all: set<Node>) returns (error: bool)
    requires Fits(head, Visit(field, header), all)
    modifies all
    ensures error <==>
      || UnboundIn(Entered(old(View(all)), head, field), Uses(field))
      || (Binds(field) && Mixes(head, Visit(field, header)))
    ensures !error ==> View(all) == Left(Entered(old(View(all)), head, field), head, Visit(field, header))
  {
    hide View, Wrote, Whole, Reach, DriverReach, OwnReach, UnboundIn, Uses, Mixes;
    if field.kind == Variable || (field.kind == PatternCE && field.value.Some?) {
      error := ProcessVariable(head, field, header, all);
    } else {
      error := ProcessField(field, all);
    }
  }

  method GetVariables(head: Node, ghost all: set<Node>) returns (error: bool)
    requires Linked(head) && Typed(head) && Whole(head) <= all
    modifies all
    ensures error <==> Visited(old(View(all)), head, Visits(head, null)).None?
    ensures !error ==> Visited(old(View(all)), head, Visits(head, null)) == Some(View(all))
  {
    hide View, Left, Entered, UnboundIn, Uses, Mixes;
    var thePattern: Node?, multifieldHeader: Node? := head, null;
    while thePattern != null
      invariant Walkable(thePattern, multifieldHeader) && Typed(thePattern) && Typed(multifieldHeader)
      invariant Whole(thePattern) <= all && Whole(multifieldHeader) <= all
      invariant Visited(View(all), head, Visits(thePattern, multifieldHeader))
                == Visited(old(View(all)), head, Visits(head, null))
      decreases if multifieldHeader == null then 2 * Height(thePattern) else 2 * Height(multifieldHeader) - 1,
                Height(thePattern)
    {
      if thePattern.multifieldSlot {
        multifieldHeader := thePattern;
        thePattern := thePattern.bottom;
      }
      if thePattern != null {
        assert Linked(thePattern);
        error := Process(head, thePattern, multifieldHeader, all);
        if error { return; }
      }
      if thePattern == null {
        thePattern := multifieldHeader;
      } else if thePattern.right == null && multifieldHeader != null {
        thePattern := multifieldHeader;
        multifieldHeader := null;
      }
      thePattern := thePattern.right;
    }
    return false;
  }

  // ----- the whole rule -----

  ghost function TestUses(ce: Node): set<Node>
    requires Linked(ce)
  {
    if ce.kind == PatternCE then ExpressionVariables(ce.expression) + ExpressionVariables(ce.secondaryExpression)
    else if ce.kind == TestCE then ExpressionVariables(ce.expression)
    else {}
  }

  /** A pattern address whose name something before it binds. */
  ghost predicate Rebinds(v: References, ce: Node) {
    ce.kind == PatternCE && ce.value.Some? && ce in v && v[ce] != null
  }

  /** The references after one CE, unless the CE has an error. */
  ghost function Passed(v: References, ce: Node): Option<References>
    requires Linked(ce)
  {
    if Rebinds(v, ce) then None
    else
      var visited := if ce.kind == PatternCE then Visited(v, ce, Visits(ce, null)) else Some(v);
      if visited.None? || UnboundIn(visited.value, TestUses(ce)) then None else visited
  }

  ghost function Analysed(v: References, ce: Node?): Option<References>
    requires Linked(ce)
    decreases Height(ce)
  {
    if ce == null then Some(v)
    else
      match Passed(v, ce)
      case None => None
      case Some(w) => Analysed(w, ce.bottom)
  }

  method TestCEAnalysis(expression: Node?, ghost all: set<Node>) returns (unbound: bool)
    requires Linked(expression) && Whole(expression) <= all
    ensures unbound <==> UnboundIn(View(all), ExpressionVariables(expression))
  {
    ExpressionVariablesAreWhole(expression);
    UnboundInView(all, ExpressionVariables(expression));
    var rv := CheckExpression(expression);
    return rv != null;
  }

  /** `stop` is an error that ends the analysis at once; with another error it goes on, and may find
      more, but has failed. */
  method AnalyseCE(ce: Node, ghost all: set<Node>) returns (stop: bool, error: bool)
    requires Linked(ce) && Typed(ce) && Whole(ce) <= all
    modifies all
    ensures stop || error <==> Passed(old(View(all)), ce).None?
    ensures !stop && !error ==> Passed(old(View(all)), ce) == Some(View(all))
  {
    hide View, Visited, Visits, ExpressionVariables, Typed;
    stop, error := false, false;
    if ce.kind == PatternCE {
      if ce.value.Some? && ce.referringNode != null { error := true; }
      InView(all, ce);
      stop := GetVariables(ce, all);
      if stop { return; }
      var first := TestCEAnalysis(ce.expression, all);
      var second := TestCEAnalysis(ce.secondaryExpression, all);
      error := error || first || second;
    } else if ce.kind == TestCE {
      error := TestCEAnalysis(ce.expression, all);
    }
  }

  lemma InView(all: set<Node>, n: Node)
    requires n in all
    ensures n in View(all) && View(all)[n] == n.referringNode
  {
  }

  // ----- nand frames -----

  datatype NandFrame = NandFrame(nandCE: Node, depth: int)

  /** The frame belongs to the nand that was entered with `nandCE` and that no CE since then has left. */
  ghost predicate Encloses(frame: NandFrame, seen: seq<Node>) {
    exists k :: 0 <= k < |seen| && OpenSince(frame, seen, k)
  }

  ghost predicate OpenSince(frame: NandFrame, seen: seq<Node>, k: nat)
    requires k < |seen|
  {
    && seen[k] == frame.nandCE && seen[k].beginNandDepth > frame.depth
    && forall m :: k <= m < |seen| ==> seen[m].endNandDepth > frame.depth
  }

  class Analysis {
    var theNandFrames: seq<NandFrame>
    var currentDepth: int
    ghost var seen: seq<Node>

    constructor ()
      ensures Valid() && seen == [] && currentDepth == 1
    {
      theNandFrames, currentDepth, seen := [], 1, [];
    }

    /** The frames are in step with the depth. */
    ghost predicate InStep()
      reads this
    {
      && |theNandFrames| == currentDepth - 1
      && forall i :: 0 <= i < |theNandFrames| ==> theNandFrames[i].depth == currentDepth - 1 - i
    }

    ghost predicate Valid()
      reads this
    {
      InStep() && forall i :: 0 <= i < |theNandFrames| ==> Encloses(theNandFrames[i], seen)
    }

    /** Valid while `ce` is looked at. */
    ghost predicate Inside(ce: Node)
      reads this
    {
      InStep() && forall i :: 0 <= i < |theNandFrames| ==>
        Encloses(theNandFrames[i], seen)
        || (theNandFrames[i].nandCE == ce && theNandFrames[i].depth < ce.beginNandDepth)
    }

    method EnterNands(ce: Node)
      requires Valid()
      modifies this
      ensures Inside(ce) && seen == old(seen) && currentDepth >= ce.beginNandDepth
      ensures currentDepth == old(currentDepth) || currentDepth == ce.beginNandDepth
    {
      while ce.beginNandDepth > currentDepth
        invariant Inside(ce) && seen == old(seen) && currentDepth >= old(currentDepth)
        invariant currentDepth == old(currentDepth) || currentDepth <= ce.beginNandDepth
      {
        theNandFrames := [NandFrame(ce, currentDepth)] + theNandFrames;
        currentDepth := currentDepth + 1;
      }
    }

    /** The pop of the source reads the first frame: there always is one. */
    method LeaveNands(ce: Node)
      requires Inside(ce) && ce.endNandDepth >= 1
      modifies this
      ensures Valid() && seen == old(seen) + [ce] && currentDepth <= ce.endNandDepth
      ensures currentDepth == old(currentDepth) || currentDepth == ce.endNandDepth
    {
      while ce.endNandDepth < currentDepth
        invariant Inside(ce) && seen == old(seen) && currentDepth <= old(currentDepth)
        invariant currentDepth == old(currentDepth) || currentDepth >= ce.endNandDepth
      {
        theNandFrames := theNandFrames[1..];
        currentDepth := currentDepth - 1;
      }
      seen := seen + [ce];
      forall i | 0 <= i < |theNandFrames| ensures Encloses(theNandFrames[i], seen) {
        StillEncloses(theNandFrames[i], old(seen), ce);
      }
    }

    /** One round: the frames are entered, the CE analysed and the frames left. */
    method AnalyseNext(ce: Node, ghost all: set<Node>) returns (stop: bool, error: bool)
      requires Valid() && Linked(ce) && Typed(ce) && Whole(ce) <= all && ce.endNandDepth >= 1
      modifies this, all
      ensures stop || error <==> Passed(old(View(all)), ce).None?
      ensures !stop && !error ==> Passed(old(View(all)), ce) == Some(View(all))
      ensures !stop ==> Valid() && seen == old(seen) + [ce]
    {
      hide View, Passed, Encloses, Linked, Whole, Typed;
      EnterNands(ce);
      stop, error := AnalyseCE(ce, all);
      if !stop { LeaveNands(ce); }
    }

    method VariableAnalysis(first: Node?, ghost all: set<Node>) returns (error: bool)
      requires Valid() && seen == [] && Linked(first) && Typed(first) && Whole(first) <= all && EndsAboveZero(first)
      modifies this, all
      ensures error <==> Analysed(old(View(all)), first).None?
      ensures !error ==> Analysed(old(View(all)), first) == Some(View(all))
      ensures !error ==> Valid() && seen == CEs(first)
    {
      hide View, Passed, Valid, Linked, Typed, Whole, EndsAboveZero, CEs, Analysed;
      error := false;
      var patternPtr := first;
      ghost var start := View(all);
      while patternPtr != null
        invariant Linked(patternPtr) && Typed(patternPtr) && Whole(patternPtr) <= all && EndsAboveZero(patternPtr)
        invariant Valid() && seen + CEs(patternPtr) == CEs(first)
        invariant error ==> Analysed(start, first).None?
        invariant !error ==> Analysed(View(all), patternPtr) == Analysed(start, first)
        decreases Height(patternPtr)
      {
        OneCE(View(all), patternPtr);
        var stop, flagged := AnalyseNext(patternPtr, all);
        if stop { return true; }
        error := error || flagged;
        patternPtr := patternPtr.bottom;
      }
      NoCE(View(all));
    }
  }

  lemma OneCE(v: References, ce: Node)
    requires Linked(ce)
    ensures Linked(ce.bottom) && Height(ce.bottom) < Height(ce) && Whole(ce.bottom) <= Whole(ce)
    ensures Typed(ce) ==> Typed(ce.bottom)
    ensures EndsAboveZero(ce) ==> ce.endNandDepth >= 1 && EndsAboveZero(ce.bottom)
    ensures CEs(ce) == [ce] + CEs(ce.bottom)
    ensures Analysed(v, ce) ==
      if Passed(v, ce).None? then None else Analysed(Passed(v, ce).value, ce.bottom)
  {
    hide Passed;
  }

  lemma NoCE(v: References)
    ensures Linked(null) && CEs(null) == [] && Analysed(v, null) == Some(v)
  {
  }

  lemma StillEncloses(frame: NandFrame, seen: seq<Node>, ce: Node)
    requires Encloses(frame, seen) || (frame.nandCE == ce && frame.depth < ce.beginNandDepth)
    requires frame.depth < ce.endNandDepth
    ensures Encloses(frame, seen + [ce])
  {
    if Encloses(frame, seen) {
      var k :| 0 <= k < |seen| && OpenSince(frame, seen, k);
      assert OpenSince(frame, seen + [ce], k);
    } else {
      assert OpenSince(frame, seen + [ce], |seen|);
    }
  }

  /** The CEs of a rule, in the order of the document. */
  ghost function CEs(ce: Node?): seq<Node>
    requires Linked(ce)
    decreases Height(ce)
  {
    if ce == null then [] else [ce] + CEs(ce.bottom)
  }

  /** The depth outside all nands is 1. */
  ghost predicate EndsAboveZero(ce: Node?)
    requires Linked(ce)
    decreases Height(ce)
  {
    ce != null ==> ce.endNandDepth >= 1 && EndsAboveZero(ce.bottom)
  }
}
