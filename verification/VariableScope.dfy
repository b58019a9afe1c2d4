/** What the overwriting of references amounts to: every use refers to the nearest binding in its
    scope, and a rule is refused exactly when a use has none. */
module VariableScope {
  import opened LhsNode
  import opened VariableAnalysis
  import opened Wrappers

  // ----- overwriting -----

  /** A binding occurrence: the field or pattern address `node`, in the CE and at the place within it
      that are numbered by `ce` and `field`. */
  datatype Binder = Binder(node: Node, ce: nat, field: nat, reach: set<Node>)

  ghost predicate Hits(b: Binder, o: Node) {
    o in b.reach && o.Named(b.node.value)
  }

  /** Whether a reference that `o` already has gives way to `b`. */
  predicate Agrees(b: Node, o: Node) {
    o.kind == PatternCE || b.pattern == o.pattern || b.patternType == o.patternType
  }

  ghost function Referred(o: Node, current: Node?, binders: seq<Binder>): Node?
    decreases |binders|
  {
    if binders == [] then current
    else Referred(o, if Hits(binders[0], o) then Taken(o, current, binders[0].node) else current, binders[1..])
  }

  lemma {:induction false} ReferredTwice(o: Node, current: Node?, first: seq<Binder>, second: seq<Binder>)
    ensures Referred(o, current, first + second) == Referred(o, Referred(o, current, first), second)
    decreases |first|
  {
    if first == [] {
      assert first + second == second;
    } else {
      assert (first + second)[1..] == first[1..] + second;
      ReferredTwice(o, if Hits(first[0], o) then Taken(o, current, first[0].node) else current, first[1..], second);
    }
  }

  ghost predicate NoneHits(binders: seq<Binder>, o: Node) {
    forall i :: 0 <= i < |binders| ==> !Hits(binders[i], o)
  }

  lemma {:induction false} ReferredToNothing(o: Node, current: Node?, binders: seq<Binder>)
    ensures Referred(o, current, binders) == null <==> current == null && NoneHits(binders, o)
    decreases |binders|
  {
    if binders != [] {
      var next := if Hits(binders[0], o) then Taken(o, current, binders[0].node) else current;
      ReferredToNothing(o, next, binders[1..]);
      if NoneHits(binders[1..], o) && !Hits(binders[0], o) {
        forall i | 0 <= i < |binders| ensures !Hits(binders[i], o) {
          if i > 0 { assert binders[i] == binders[1..][i - 1]; }
        }
      }
      if NoneHits(binders, o) {
        forall i | 0 <= i < |binders[1..]| ensures !Hits(binders[1..][i], o) {
          assert binders[1..][i] == binders[i + 1];
        }
      }
    }
  }

  /** The last binding that agrees wins. */
  lemma {:induction false} LastAgreeingWins(o: Node, current: Node?, binders: seq<Binder>, k: nat)
    requires k < |binders| && Hits(binders[k], o) && Agrees(binders[k].node, o)
    requires forall i :: k < i < |binders| ==> !Hits(binders[i], o) || !Agrees(binders[i].node, o)
    ensures Referred(o, current, binders) == binders[k].node
  {
    var before, after := binders[..k], binders[k + 1..];
    assert binders == before + ([binders[k]] + after);
    ReferredTwice(o, current, before, [binders[k]] + after);
    ReferredTwice(o, Referred(o, current, before), [binders[k]], after);
    assert Referred(o, Referred(o, current, before), [binders[k]])
        == Taken(o, Referred(o, current, before), binders[k].node);
    forall i | 0 <= i < |after| ensures !Hits(after[i], o) || !Agrees(after[i].node, o) {
      assert after[i] == binders[k + 1 + i];
    }
    NoneAgrees(o, binders[k].node, after);
  }

  lemma {:induction false} NoneAgrees(o: Node, current: Node, binders: seq<Binder>)
    requires forall i :: 0 <= i < |binders| ==> !Hits(binders[i], o) || !Agrees(binders[i].node, o)
    ensures Referred(o, current, binders) == current
    decreases |binders|
  {
    if binders != [] {
      assert forall i :: 0 <= i < |binders[1..]| ==> binders[1..][i] == binders[i + 1];
      NoneAgrees(o, current, binders[1..]);
    }
  }

  /** When no binding agrees, the first one stays. */
  lemma FirstStays(o: Node, binders: seq<Binder>, k: nat)
    requires k < |binders| && Hits(binders[k], o) && NoneHits(binders[..k], o)
    requires forall i :: k < i < |binders| ==> !Hits(binders[i], o) || !Agrees(binders[i].node, o)
    ensures Referred(o, null, binders) == binders[k].node
  {
    var before, after := binders[..k], binders[k + 1..];
    assert binders == before + ([binders[k]] + after);
    ReferredTwice(o, null, before, [binders[k]] + after);
    ReferredToNothing(o, null, before);
    ReferredTwice(o, null, [binders[k]], after);
    assert Referred(o, null, [binders[k]]) == binders[k].node;
    forall i | 0 <= i < |after| ensures !Hits(after[i], o) || !Agrees(after[i].node, o) {
      assert after[i] == binders[k + 1 + i];
    }
    NoneAgrees(o, binders[k].node, after);
  }

  // ----- the bindings of a rule -----

  ghost function BindersOf(head: Node, visits: seq<Visit>, ce: nat, field: nat): seq<Binder>
    requires Linked(head) && Visitable(visits)
  {
    if visits == [] then []
    else
      (if Binds(visits[0].field) then [OwnBinder(head, visits[0], ce, field)] else [])
      + BindersOf(head, visits[1..], ce, field + 1)
  }

  ghost function OwnBinder(head: Node, visit: Visit, ce: nat, field: nat): Binder
    requires Linked(head) && Linked(visit.field) && Linked(visit.header)
  {
    Binder(visit.field, ce, field, OwnReach(head, visit.field) + DriverReach(head, visit))
  }

  ghost function Binders(head: Node?, ce: nat): seq<Binder>
    requires Linked(head)
    decreases Height(head)
  {
    if head == null then [] else OwnBinders(head, ce) + Binders(head.bottom, ce + 1)
  }

  ghost function OwnBinders(head: Node, ce: nat): seq<Binder>
    requires Linked(head)
  {
    if head.kind == PatternCE then BindersOf(head, Visits(head, null), ce, 0) else []
  }

  lemma {:induction false} VisitedRefers(v: References, head: Node, visits: seq<Visit>, ce: nat, field: nat, o: Node)
    requires Linked(head) && Visitable(visits) && o in v && Visited(v, head, visits).Some?
    ensures o in Visited(v, head, visits).value
    ensures Visited(v, head, visits).value[o] == Referred(o, v[o], BindersOf(head, visits, ce, field))
    decreases |visits|
  {
    hide UnboundIn, Uses, Reach, OwnReach, DriverReach, Node.Named;
    if visits != [] {
      var f := visits[0].field;
      var w := Left(Entered(v, head, f), head, visits[0]);
      VisitedRefers(w, head, visits[1..], ce, field + 1, o);
      if Binds(f) {
        var b := OwnBinder(head, visits[0], ce, field);
        WroteTwice(v, OwnReach(head, f), DriverReach(head, visits[0]), f.value, f);
        assert w[o] == if Hits(b, o) then Taken(o, v[o], f) else v[o];
        assert ([b] + BindersOf(head, visits[1..], ce, field + 1))[1..] == BindersOf(head, visits[1..], ce, field + 1);
      } else {
        assert BindersOf(head, visits, ce, field) == BindersOf(head, visits[1..], ce, field + 1);
      }
    }
  }

  lemma PassedRefers(v: References, head: Node, ce: nat, o: Node)
    requires Linked(head) && o in v && Passed(v, head).Some?
    ensures o in Passed(v, head).value && Passed(v, head).value[o] == Referred(o, v[o], OwnBinders(head, ce))
  {
    hide Visited, Visits, UnboundIn, TestUses, Rebinds, BindersOf;
    if head.kind == PatternCE { VisitedRefers(v, head, Visits(head, null), ce, 0, o); }
  }

  /** The references after an analysis without errors. */
  lemma {:induction false} AnalysedRefers(v: References, head: Node?, ce: nat, o: Node)
    requires Linked(head) && o in v && Analysed(v, head).Some?
    ensures o in Analysed(v, head).value
    ensures Analysed(v, head).value[o] == Referred(o, v[o], Binders(head, ce))
    decreases Height(head)
  {
    hide Passed, OwnBinders;
    if head != null {
      PassedRefers(v, head, ce, o);
      AnalysedRefers(Passed(v, head).value, head.bottom, ce + 1, o);
      ReferredTwice(o, v[o], OwnBinders(head, ce), Binders(head.bottom, ce + 1));
    }
  }

  // ----- places in a pattern -----

  /** No node is on two links. */
  ghost predicate Tree(n: Node?)
    requires Linked(n)
    decreases Height(n)
  {
    n == null ||
    (&& Whole(n.expression) !! Whole(n.secondaryExpression) !! Whole(n.right) !! Whole(n.bottom)
     && n !in Whole(n.expression) + Whole(n.secondaryExpression) + Whole(n.right) + Whole(n.bottom)
     && Tree(n.expression) && Tree(n.secondaryExpression) && Tree(n.right) && Tree(n.bottom))
  }

  /** A multifield slot without fields, as the header of fields that follow it. */
  predicate IsEmpty(header: Node?) {
    header != null && header.bottom == null
  }

  /** No binding is visited behind a slot without fields. */
  ghost predicate NoneBehind(visits: seq<Visit>) {
    forall i :: 0 <= i < |visits| && Binds(visits[i].field) ==> !IsEmpty(visits[i].header)
  }

  /** The nodes of a field. */
  ghost function Region(v: Visit): set<Node>
    requires Linked(v.field)
  {
    {v.field} + Whole(v.field.bottom)
  }

  ghost function HeaderRest(header: Node?): set<Node>
    requires Linked(header)
  {
    if header == null then {} else Whole(header.right)
  }

  /** The nodes that a binding in the field is handed to within the pattern. */
  ghost function After(v: Visit): set<Node>
    requires Linked(v.field) && Linked(v.header)
  {
    Whole(v.field.right) + HeaderRest(v.header)
  }

  /** Where the walk goes from a field. */
  ghost function Onward(v: Visit): (Node?, Node?) {
    if v.field.right == null && v.header != null then (v.header.right, null) else (v.field.right, v.header)
  }

  ghost function Entry(field: Node, header: Node?): Visit
    requires field.multifieldSlot ==> field.bottom != null
  {
    if field.multifieldSlot then Visit(field.bottom, field) else Visit(field, header)
  }

  lemma StepsWithin(field: Node, header: Node?)
    requires Walkable(field, header) && (field.multifieldSlot ==> field.bottom != null)
    ensures var v := Entry(field, header);
      && Linked(v.field) && Linked(v.header) && Walkable(Onward(v).0, Onward(v).1)
      && Region(v) <= Whole(v.field) <= Whole(field)
      && After(v) == Whole(Onward(v).0) + HeaderRest(Onward(v).1)
      && After(v) <= Whole(field) + HeaderRest(header)
      && Visits(field, header) == [v] + Visits(Onward(v).0, Onward(v).1)
  {
    assert Linked(Entry(field, header).field);
  }

  lemma {:induction false} VisitsAreWithin(field: Node?, header: Node?, i: nat)
    requires Walkable(field, header) && i < |Visits(field, header)|
    ensures Region(Visits(field, header)[i]) <= Whole(field) + HeaderRest(header)
    ensures After(Visits(field, header)[i]) <= Whole(field) + HeaderRest(header)
    decreases if header == null then 2 * Height(field) else 2 * Height(header) - 1, Height(field)
  {
    hide Region, After;
    if field.multifieldSlot && field.bottom == null {
      VisitsAreWithin(field.right, field, i);
    } else {
      StepsWithin(field, header);
      var v := Entry(field, header);
      var (f, h) := Onward(v);
      if i > 0 {
        hide Whole, HeaderRest;
        VisitsAreWithin(f, h, i - 1);
        assert Visits(field, header)[i] == Visits(f, h)[i - 1];
      }
    }
  }

  /** Neither a binding nor a slot from here to the end of the pattern. */
  ghost predicate Quiet(field: Node?)
    requires Linked(field)
    decreases Height(field)
  {
    field != null ==> !field.multifieldSlot && !Binds(field) && Quiet(field.right)
  }

  /** Where the walk stands: before its header's rest, or behind a header without fields. */
  ghost predicate InOrder(field: Node?, header: Node?) {
    && Walkable(field, header) && Tree(field) && Tree(header)
    && if IsEmpty(header) then Whole(field) <= Whole(header.right) && (Quiet(field) ==> Quiet(header.right))
       else Whole(field) !! HeaderRest(header)
  }

  lemma StepsInOrder(field: Node, header: Node?)
    requires InOrder(field, header)
    ensures field.multifieldSlot && field.bottom == null ==> InOrder(field.right, field)
    ensures !(field.multifieldSlot && field.bottom == null) ==>
      var v := Entry(field, header);
      && Linked(v.field) && Linked(v.header) && (!IsEmpty(v.header) ==> Region(v) !! After(v))
      && Region(v) !! Whole(v.field.right)
      && ((Binds(v.field) && IsEmpty(v.header)) || InOrder(Onward(v).0, Onward(v).1))
      && (IsEmpty(v.header) && v.field.right == null && !Binds(v.field) ==> Quiet(v.header.right))
      && (IsEmpty(v.header) ==> v == Visit(field, header))
  {
    if !(field.multifieldSlot && field.bottom == null) {
      StepsWithin(field, header);
      assert Linked(Entry(field, header).field) && Tree(Entry(field, header).field);
      if !field.multifieldSlot && !Binds(field) { StaysQuiet(field); }
    }
  }

  lemma StaysQuiet(field: Node)
    requires Linked(field) && !field.multifieldSlot && !Binds(field)
    ensures Quiet(field) == Quiet(field.right) && Quiet(null)
  {
  }

  lemma {:induction false} QuietVisits(field: Node?, i: nat)
    requires Linked(field) && Quiet(field) && i < |Visits(field, null)|
    ensures !Binds(Visits(field, null)[i].field)
    decreases Height(field)
  {
    if i > 0 { QuietVisits(field.right, i - 1); }
  }

  lemma NoneBehindRest(visits: seq<Visit>)
    requires visits != [] && NoneBehind(visits)
    ensures NoneBehind(visits[1..]) && (IsEmpty(visits[0].header) ==> !Binds(visits[0].field))
  {
  }

  lemma SameVisits(slot: Node, header: Node?)
    requires Walkable(slot, header) && slot.multifieldSlot && slot.bottom == null
    ensures Visits(slot, header) == Visits(slot.right, slot) && Whole(slot.right) <= Whole(slot)
  {
  }

  /** Behind a slot without fields, the next binding stands in a slot that follows: what it is handed to
      follows too. */
  lemma {:induction false} BehindEmpty(field: Node?, header: Node, p: nat)
    requires InOrder(field, header) && IsEmpty(header) && NoneBehind(Visits(field, header))
    requires p < |Visits(field, header)| && Binds(Visits(field, header)[p].field)
    ensures Region(Visits(field, header)[p]) <= Whole(field) && After(Visits(field, header)[p]) <= Whole(field)
    decreases Height(field)
  {
    hide Region, After, Whole, Tree, Quiet;
    StepsInOrder(field, header);
    if field.multifieldSlot && field.bottom == null {
      SameVisits(field, header);
      BehindEmpty(field.right, field, p);
    } else {
      StepsWithin(field, header);
      var v := Entry(field, header);
      var (f, h) := Onward(v);
      NoneBehindRest(Visits(field, header));
      if field.multifieldSlot {
        SlotHoldsItsRest(field);
        if p > 0 { VisitsAreWithin(f, h, p - 1); }
      } else if field.right == null {
        QuietVisits(header.right, p - 1);
      } else {
        RightIsWithin(field);
        BehindEmpty(field.right, header, p - 1);
      }
    }
  }

  lemma SlotHoldsItsRest(slot: Node)
    requires Linked(slot) && slot.multifieldSlot && slot.bottom != null && Linked(slot.bottom)
    ensures Region(Visit(slot.bottom, slot)) <= Whole(slot) && After(Visit(slot.bottom, slot)) <= Whole(slot)
  {
  }

  lemma RightIsWithin(field: Node)
    requires Linked(field)
    ensures Whole(field.right) <= Whole(field)
  {
  }

  lemma VisitsSomething(field: Node?, header: Node?)
    requires Walkable(field, header) && Visits(field, header) != []
    ensures field != null
  {
  }

  /** A binding is handed to exactly the fields that come after it. */
  lemma {:induction false} FieldsAfter(field: Node?, header: Node?, p: nat, q: nat, o: Node)
    requires InOrder(field, header) && NoneBehind(Visits(field, header))
    requires p < |Visits(field, header)| && q < |Visits(field, header)| && Binds(Visits(field, header)[p].field)
    requires o in Region(Visits(field, header)[q])
    ensures o in After(Visits(field, header)[p]) <==> p < q
    ensures o in Region(Visits(field, header)[p]) <==> p == q
    decreases p + q, Height(field)
  {
    hide Region, After, Whole, HeaderRest, Tree, Quiet, Visits, NoneBehind, Entry, Onward;
    VisitsSomething(field, header);
    StepsInOrder(field, header);
    if field.multifieldSlot && field.bottom == null {
      SameVisits(field, header);
      FieldsAfter(field.right, field, p, q, o);
    } else {
      StepsWithin(field, header);
      NoneBehindRest(Visits(field, header));
      var v := Entry(field, header);
      var (f, h) := Onward(v);
      assert Visits(field, header)[1..] == Visits(f, h);
      if p > 0 && q > 0 {
        FieldsAfter(f, h, p - 1, q - 1, o);
      } else if q > 0 {
        VisitsAreWithin(f, h, q - 1);
      } else if p > 0 {
        FieldsBefore(v, f, h, p - 1);
      }
    }
  }

  /** Nothing of a field is handed a binding that comes later. */
  lemma FieldsBefore(v: Visit, f: Node?, h: Node?, p: nat)
    requires Linked(v.field) && Linked(v.header) && (f, h) == Onward(v)
    requires InOrder(f, h) && NoneBehind(Visits(f, h)) && p < |Visits(f, h)| && Binds(Visits(f, h)[p].field)
    requires (!IsEmpty(v.header) ==> Region(v) !! After(v)) && Region(v) !! Whole(v.field.right)
    requires After(v) == Whole(f) + HeaderRest(h)
    requires IsEmpty(v.header) && v.field.right == null ==> Quiet(v.header.right)
    ensures Region(v) !! After(Visits(f, h)[p]) && Region(v) !! Region(Visits(f, h)[p])
  {
    hide Region, After, Whole, HeaderRest, Tree, Quiet;
    if !IsEmpty(v.header) {
      VisitsAreWithin(f, h, p);
    } else if v.field.right == null {
      QuietVisits(v.header.right, p);
    } else {
      BehindEmpty(v.field.right, v.header, p);
    }
  }

  // ----- places in a rule -----

  ghost predicate NoCEs(nodes: set<Node>) {
    forall n :: n in nodes ==> !n.IsCE()
  }

  /** Nothing within a CE stops a propagation. */
  lemma {:induction false} ReachIsWhole(n: Node?, startDepth: int, around: set<Node>)
    requires Linked(n) && Whole(n) <= around && NoCEs(around)
    ensures Reach(n, startDepth) == Whole(n)
    decreases Height(n)
  {
    if n != null {
      assert n in Whole(n);
      ReachIsWhole(n.expression, startDepth, around);
      ReachIsWhole(n.secondaryExpression, startDepth, around);
      ReachIsWhole(n.right, startDepth, around);
      ReachIsWhole(n.bottom, startDepth, around);
    }
  }

  ghost function Tests(ce: Node): set<Node>
    requires Linked(ce)
  {
    Whole(ce.expression) + Whole(ce.secondaryExpression)
  }

  /** A CE as the parser leaves it. */
  ghost predicate Shaped(ce: Node)
    requires Linked(ce)
  {
    ce.IsCE() && !ce.multifieldSlot && NoCEs(Whole(ce.right) + Tests(ce))
  }

  /** And with no binding behind a multifield slot without fields. */
  ghost predicate Parsed(ce: Node)
    requires Linked(ce)
  {
    Shaped(ce) && NoneBehind(Visits(ce, null))
  }

  /** The place `at` in a CE: its own node, a field, or its tests. */
  ghost predicate Sits(o: Node, ce: Node, at: nat)
    requires Linked(ce)
  {
    var visits := Visits(ce, null);
    if at == 0 then o == ce
    else if at < |visits| then o in Region(visits[at])
    else at == |visits| && o in Tests(ce)
  }

  ghost function Own(ce: Node): set<Node>
    requires Linked(ce)
  {
    {ce} + Whole(ce.right) + Tests(ce)
  }

  ghost function BinderReach(ce: Node, at: nat): set<Node>
    requires Linked(ce) && at < |Visits(ce, null)|
  {
    OwnReach(ce, Visits(ce, null)[at].field) + DriverReach(ce, Visits(ce, null)[at])
  }

  lemma HeadFirst(ce: Node)
    requires Linked(ce) && Shaped(ce)
    ensures Visits(ce, null) == [Visit(ce, null)] + Visits(ce.right, null)
  {
  }

  lemma SitsInOwn(o: Node, ce: Node, at: nat)
    requires Linked(ce) && Shaped(ce) && Sits(o, ce, at)
    ensures o in Own(ce)
  {
    hide Whole, Tests, NoCEs, NoneBehind, Visits, After;
    HeadFirst(ce);
    if 0 < at < |Visits(ce, null)| { VisitsAreWithin(ce.right, null, at - 1); }
  }

  /** What a field's binding reaches: its own constraints, the fields after it, the tests, and what is
      below if the CE lets it pass. */
  lemma ReachOfField(ce: Node, at: nat)
    requires Linked(ce) && Shaped(ce) && 0 < at < |Visits(ce, null)|
    ensures var v := Visits(ce, null)[at];
      && Linked(v.field) && Linked(v.header) && v == Visits(ce.right, null)[at - 1]
      && BinderReach(ce, at) == Whole(v.field.bottom) + After(v) + Tests(ce)
                                + if Passes(ce) then Reach(ce.bottom, ce.beginNandDepth) else {}
  {
    hide Whole, Reach, Visits, NoneBehind;
    HeadFirst(ce);
    var v := Visits(ce, null)[at];
    assert v == Visits(ce.right, null)[at - 1];
    VisitsAreWithin(ce.right, null, at - 1);
    var around, depth := Whole(ce.right) + Tests(ce), ce.beginNandDepth;
    assert v.field in Region(v);
    ReachIsWhole(v.field.bottom, depth, around);
    ReachIsWhole(v.field.right, depth, around);
    if v.header != null { ReachIsWhole(v.header.right, depth, around); }
    ReachIsWhole(ce.expression, depth, around);
    ReachIsWhole(ce.secondaryExpression, depth, around);
  }

  lemma ReachOfParts(ce: Node, startDepth: int)
    requires Linked(ce) && Shaped(ce)
    ensures Reach(ce.right, startDepth) == Whole(ce.right)
    ensures Reach(ce.expression, startDepth) + Reach(ce.secondaryExpression, startDepth) == Tests(ce)
  {
    hide Whole, Reach;
    var around := Whole(ce.right) + Tests(ce);
    ReachIsWhole(ce.right, startDepth, around);
    ReachIsWhole(ce.expression, startDepth, around);
    ReachIsWhole(ce.secondaryExpression, startDepth, around);
  }

  lemma ReachOfHead(ce: Node)
    requires Linked(ce) && Shaped(ce) && ce.kind == PatternCE
    ensures |Visits(ce, null)| > 0
    ensures BinderReach(ce, 0) == Whole(ce.right) + Tests(ce)
                                  + if Passes(ce) then Reach(ce.bottom, ce.beginNandDepth) else {}
  {
    HeadFirst(ce);
    ReachOfParts(ce, ce.beginNandDepth);
  }

  /** The parts of a CE are apart from each other and from what is below it. */
  lemma PartsAreApart(ce: Node)
    requires Linked(ce) && Tree(ce)
    ensures Tests(ce) !! Whole(ce.right) && Own(ce) !! Whole(ce.bottom)
    ensures ce !in Tests(ce) && ce !in Whole(ce.right) && Tree(ce.right) && Tree(ce.bottom)
    ensures Whole(ce) == Own(ce) + Whole(ce.bottom)
  {
  }

  lemma FieldsInOrder(ce: Node)
    requires Linked(ce) && Tree(ce) && Parsed(ce)
    ensures InOrder(ce.right, null) && NoneBehind(Visits(ce.right, null))
  {
    hide Whole, NoCEs, Visits;
    HeadFirst(ce);
    NoneBehindRest(Visits(ce, null));
  }

  /** Within a pattern a binding reaches what comes after it, and the constraints of its own field. */
  lemma ReachInPattern(ce: Node, p: nat, o: Node, q: nat)
    requires Linked(ce) && Tree(ce) && Parsed(ce) && ce.kind == PatternCE
    requires p < |Visits(ce, null)| && Binds(Visits(ce, null)[p].field) && Sits(o, ce, q)
    ensures o in BinderReach(ce, p) <==> p < q || (p == q && o != Visits(ce, null)[p].field)
  {
    hide BinderReach, Whole, Reach, Tests, Visits, Tree, NoneBehind, NoCEs;
    HeadFirst(ce);
    SitsInOwn(o, ce, q);
    PartsAreApart(ce);
    ReachIsInWhole(ce.bottom, ce.beginNandDepth);
    if p == 0 {
      ReachOfHead(ce);
      if 0 < q < |Visits(ce, null)| { VisitsAreWithin(ce.right, null, q - 1); }
    } else {
      ReachOfField(ce, p);
      VisitsAreWithin(ce.right, null, p - 1);
      if 0 < q < |Visits(ce, null)| {
        VisitsAreWithin(ce.right, null, q - 1);
        FieldsInOrder(ce);
        FieldsAfter(ce.right, null, p - 1, q - 1, o);
        NotBelowItself(Visits(ce, null)[p].field);
      }
    }
  }

  lemma NotBelowItself(n: Node)
    requires Linked(n)
    ensures n !in Whole(n.bottom)
  {
    WholeIsLower(n.bottom);
  }

  lemma {:induction false} WholeIsLower(n: Node?)
    requires Linked(n)
    ensures forall m :: m in Whole(n) ==> Height(m) <= Height(n)
    decreases Height(n)
  {
    if n != null {
      WholeIsLower(n.expression);
      WholeIsLower(n.secondaryExpression);
      WholeIsLower(n.right);
      WholeIsLower(n.bottom);
    }
  }

  ghost predicate AllParsed(ce: Node?)
    requires Linked(ce)
    decreases Height(ce)
  {
    ce != null ==> Parsed(ce) && AllParsed(ce.bottom)
  }

  /** The tail of a rule. */
  lemma {:induction false} Tail(first: Node?, i: nat)
    requires Linked(first) && i < |CEs(first)|
    ensures Linked(CEs(first)[i]) && CEs(CEs(first)[i]) == CEs(first)[i..]
    ensures Whole(CEs(first)[i]) <= Whole(first)
    ensures Tree(first) ==> Tree(CEs(first)[i])
    ensures AllParsed(first) ==> AllParsed(CEs(first)[i])
    decreases i
  {
    if i > 0 { Tail(first.bottom, i - 1); }
  }

  lemma ReachOfCE(c: Node, startDepth: int)
    requires Linked(c) && Shaped(c)
    ensures Reach(c, startDepth) == Own(c) + if c.endNandDepth < startDepth then {} else Reach(c.bottom, startDepth)
  {
    hide Whole, Tests, NoCEs;
    ReachOfParts(c, startDepth);
  }

  /** Going down, a propagation gets as far as the first CE that ends above its depth. */
  lemma {:induction false} ReachDown(c: Node?, startDepth: int, k: nat, o: Node)
    requires Linked(c) && Tree(c) && AllParsed(c) && k < |CEs(c)| && Linked(CEs(c)[k]) && o in Own(CEs(c)[k])
    ensures o in Reach(c, startDepth) <==> forall m :: 0 <= m < k ==> CEs(c)[m].endNandDepth >= startDepth
    decreases k
  {
    hide Whole, Reach, Tree, Own, Shaped, NoneBehind, Visits;
    ReachOfCE(c, startDepth);
    PartsAreApart(c);
    var below := CEs(c.bottom);
    assert CEs(c) == [c] + below;
    if k > 0 {
      ReachDown(c.bottom, startDepth, k - 1, o);
      Tail(c.bottom, k - 1);
      assert CEs(c)[k] == below[k - 1];
      OwnInWhole(CEs(c)[k], o);
      assert o !in Own(c);
      assert forall m :: 0 <= m < k - 1 ==> CEs(c)[m + 1] == below[m];
      assert forall m :: 0 < m < k ==> CEs(c)[m] == below[m - 1];
      assert o in Reach(c, startDepth) <==> c.endNandDepth >= startDepth && o in Reach(c.bottom, startDepth);
      assert CEs(c)[0] == c;
      assert o in Reach(c.bottom, startDepth) <==> forall m :: 0 <= m < k - 1 ==> below[m].endNandDepth >= startDepth;
    } else {
      assert CEs(c)[0] == c;
    }
  }

  lemma OwnInWhole(ce: Node, o: Node)
    requires Linked(ce) && o in Own(ce)
    ensures o in Whole(ce)
  {
  }

  // ----- scopes -----

  datatype Place = Place(ce: nat, field: nat)

  ghost predicate At(o: Node, first: Node?, place: Place)
    requires Linked(first)
  {
    place.ce < |CEs(first)| && Linked(CEs(first)[place.ce]) && Sits(o, CEs(first)[place.ce], place.field)
  }

  /** The scope of a binding: what comes after it in its pattern and the constraints of its own field;
      and, unless its pattern is a not, an exists or the last of a nand, the CEs that follow up to the
      first that ends above the depth the pattern began with. */
  ghost predicate InScope(first: Node?, b: Binder, o: Node, place: Place)
    requires Linked(first) && b.ce < |CEs(first)| && place.ce <= |CEs(first)|
  {
    if b.ce == place.ce then
      b.field < place.field || (b.field == place.field && o != b.node)
    else
      && b.ce < place.ce && !CEs(first)[b.ce].negated && !CEs(first)[b.ce].existsCE
      && CEs(first)[b.ce].beginNandDepth <= CEs(first)[b.ce].endNandDepth
      && forall m :: b.ce < m < place.ce ==> CEs(first)[m].endNandDepth >= CEs(first)[b.ce].beginNandDepth
  }

  /** `b` is the binding at its place of the rule, where `base` CEs come before `first`. */
  ghost predicate IsBinder(first: Node?, base: nat, b: Binder)
    requires Linked(first)
  {
    base <= b.ce < base + |CEs(first)| && Linked(CEs(first)[b.ce - base]) && BindsIn(CEs(first)[b.ce - base], b)
  }

  ghost predicate BindsIn(ce: Node, b: Binder)
    requires Linked(ce)
  {
    && ce.kind == PatternCE && b.field < |Visits(ce, null)| && b.node == Visits(ce, null)[b.field].field
    && Binds(b.node) && b.reach == BinderReach(ce, b.field)
  }

  predicate Before(a: Binder, b: Binder) {
    a.ce < b.ce || (a.ce == b.ce && a.field < b.field)
  }

  lemma {:induction false} BindersOfAre(head: Node, from: nat, ce: nat, k: nat)
    requires Linked(head) && from <= |Visits(head, null)|
    requires k < |BindersOf(head, Visits(head, null)[from..], ce, from)|
    ensures var b := BindersOf(head, Visits(head, null)[from..], ce, from)[k];
      && b.ce == ce && from <= b.field < |Visits(head, null)| && b.node == Visits(head, null)[b.field].field
      && Binds(b.node) && b.reach == BinderReach(head, b.field)
    decreases |Visits(head, null)| - from
  {
    hide Visits, OwnReach, DriverReach;
    var visits := Visits(head, null)[from..];
    if visits != [] {
      assert visits[1..] == Visits(head, null)[from + 1..];
      var n := if Binds(visits[0].field) then 1 else 0;
      if k >= n { BindersOfAre(head, from + 1, ce, k - n); }
    }
  }

  /** Every binding of the list stands at its place. */
  lemma {:induction false} BindersAre(first: Node?, base: nat, k: nat)
    requires Linked(first) && k < |Binders(first, base)|
    ensures IsBinder(first, base, Binders(first, base)[k])
    decreases Height(first)
  {
    hide Visits, BindersOf, BinderReach, IsBinder;
    var own := OwnBinders(first, base);
    if k < |own| {
      assert Visits(first, null)[0..] == Visits(first, null);
      BindersOfAre(first, 0, base, k);
      IsOwnBinder(first, base, own[k]);
    } else {
      BindersAre(first.bottom, base + 1, k - |own|);
      IsBinderAbove(first, base, Binders(first.bottom, base + 1)[k - |own|]);
    }
  }

  lemma IsOwnBinder(first: Node, base: nat, b: Binder)
    requires Linked(first) && b.ce == base && BindsIn(first, b)
    ensures IsBinder(first, base, b)
  {
    hide BindsIn;
  }

  lemma IsBinderAbove(first: Node, base: nat, b: Binder)
    requires Linked(first) && IsBinder(first.bottom, base + 1, b)
    ensures IsBinder(first, base, b)
  {
    hide BindsIn;
    var below := CEs(first.bottom);
    assert CEs(first) == [first] + below;
    var i := b.ce - base - 1;
    assert ([first] + below)[i + 1] == below[i];
  }

  lemma SitsBelow(first: Node?, i: nat, j: nat, o: Node, at: nat)
    requires Linked(first) && Tree(first) && AllParsed(first) && i < j < |CEs(first)|
    requires Linked(CEs(first)[j]) && Sits(o, CEs(first)[j], at)
    ensures Linked(CEs(first)[i]) && o in Whole(CEs(first)[i].bottom) && o in Own(CEs(first)[j])
    ensures CEs(first)[i].bottom != null && j - i - 1 < |CEs(CEs(first)[i].bottom)|
    ensures CEs(CEs(first)[i].bottom) == CEs(first)[i + 1..]
  {
    hide Sits, Tree, Own, Shaped, NoneBehind, Visits;
    Tail(first, i);
    Tail(first, j);
    SitsInOwn(o, CEs(first)[j], at);
    OwnInWhole(CEs(first)[j], o);
    var c := CEs(first)[i].bottom;
    assert CEs(first)[i..][1..] == CEs(first)[i + 1..];
    Tail(c, j - i - 1);
    assert CEs(c)[j - i - 1] == CEs(first)[j];
  }

  lemma WholeOf(ce: Node)
    requires Linked(ce)
    ensures Whole(ce) == Own(ce) + Whole(ce.bottom)
  {
  }

  lemma ReachIsWithin(ce: Node, b: Binder)
    requires Linked(ce) && Parsed(ce) && BindsIn(ce, b)
    ensures b.reach <= Own(ce) + if Passes(ce) then Reach(ce.bottom, ce.beginNandDepth) else {}
    ensures Passes(ce) ==> Reach(ce.bottom, ce.beginNandDepth) <= b.reach
    ensures b.reach <= Whole(ce)
  {
    hide BinderReach, Whole, Reach, Visits, NoCEs, NoneBehind;
    if b.field == 0 {
      ReachOfHead(ce);
    } else {
      ReachOfField(ce, b.field);
      HeadFirst(ce);
      VisitsAreWithin(ce.right, null, b.field - 1);
    }
    ReachIsInWhole(ce.bottom, ce.beginNandDepth);
    WholeOf(ce);
  }

  lemma ReachesDownIntoScope(first: Node?, b: Binder, o: Node, place: Place)
    requires Linked(first) && Tree(first) && AllParsed(first)
    requires IsBinder(first, 0, b) && At(o, first, place) && b.ce < place.ce
    ensures o in b.reach <==> InScope(first, b, o, place)
  {
    hide Tree, Own, Whole, Reach, Sits, Parsed, Visits, BinderReach;
    var i, j := b.ce, place.ce;
    Tail(first, i);
    SitsBelow(first, i, j, o, place.field);
    var ce := CEs(first)[i];
    PartsAreApart(ce);
    ReachIsWithin(ce, b);
    ReachDown(ce.bottom, ce.beginNandDepth, j - i - 1, o);
    var below := CEs(ce.bottom);
    assert forall m :: 0 <= m < j - i - 1 ==> below[m] == CEs(first)[i + 1 + m];
    assert forall m :: i < m < j ==> CEs(first)[m] == below[m - i - 1];
  }

  /** A binding is handed to exactly the nodes in its scope. */
  lemma ReachIsScope(first: Node?, b: Binder, o: Node, place: Place)
    requires Linked(first) && Tree(first) && AllParsed(first)
    requires IsBinder(first, 0, b) && At(o, first, place)
    ensures o in b.reach <==> InScope(first, b, o, place)
  {
    hide Tree, Sits, Visits, BinderReach, NoneBehind, NoCEs;
    if b.ce < place.ce {
      ReachesDownIntoScope(first, b, o, place);
    } else if b.ce == place.ce {
      Tail(first, b.ce);
      ReachInPattern(CEs(first)[b.ce], b.field, o, place.field);
    } else {
      hide BindsIn, Own, Whole, Reach, Passes, Parsed;
      var ce := CEs(first)[place.ce];
      Tail(first, place.ce);
      Tail(first, b.ce);
      SitsInOwn(o, ce, place.field);
      PartsAreApart(ce);
      var below := CEs(first)[place.ce..];
      assert below[1..] == CEs(ce.bottom);
      assert CEs(ce.bottom)[b.ce - place.ce - 1] == CEs(first)[b.ce];
      Tail(ce.bottom, b.ce - place.ce - 1);
      ReachIsWithin(CEs(first)[b.ce], b);
    }
  }

  // ----- the uses of a rule -----

  /** The uses that are checked at a place of a CE. */
  ghost function UsesAt(ce: Node, at: nat): set<Node>
    requires Linked(ce)
  {
    var visits := Visits(ce, null);
    if at < |visits| && ce.kind == PatternCE then Uses(visits[at].field)
    else if at == |visits| then TestUses(ce)
    else {}
  }

  lemma TestUsesAreTests(ce: Node)
    requires Linked(ce)
    ensures TestUses(ce) <= Tests(ce)
  {
    ExpressionVariablesAreWhole(ce.expression);
    ExpressionVariablesAreWhole(ce.secondaryExpression);
  }

  lemma UsesSit(ce: Node, at: nat, use: Node)
    requires Linked(ce) && Parsed(ce) && use in UsesAt(ce, at)
    ensures Sits(use, ce, at)
  {
    hide NoCEs, NoneBehind, TestUses, Whole, Tests, Visits;
    HeadFirst(ce);
    TestUsesAreTests(ce);
    if at < |Visits(ce, null)| { SlotVariablesAreBelow(Visits(ce, null)[at].field); }
  }

  lemma UsesAreReached(ce: Node, at: nat)
    requires Linked(ce) && Parsed(ce) && ce.kind == PatternCE && at < |Visits(ce, null)|
    ensures Uses(Visits(ce, null)[at].field) <= OwnReach(ce, Visits(ce, null)[at].field)
  {
    hide NoCEs, NoneBehind, Whole, Tests, Visits;
    HeadFirst(ce);
    var field := Visits(ce, null)[at].field;
    if field.kind != PatternCE {
      assert at > 0;
      VisitsAreWithin(ce.right, null, at - 1);
      SlotVariablesAreBelow(field);
      ReachIsWhole(field.bottom, ce.beginNandDepth, Whole(ce.right) + Tests(ce));
    }
  }

  // ----- a rule without errors -----

  /** A use that was checked stays bound. */
  lemma {:induction false} VisitedBinds(v: References, head: Node, visits: seq<Visit>, at: nat, use: Node)
    requires Linked(head) && Visitable(visits) && Visited(v, head, visits).Some?
    requires at < |visits| && use in Uses(visits[at].field) && use in v
    ensures use in Visited(v, head, visits).value && Visited(v, head, visits).value[use] != null
    decreases |visits|
  {
    hide Uses, OwnReach, DriverReach;
    var entered := Entered(v, head, visits[0].field);
    var w := Left(entered, head, visits[0]);
    if at == 0 {
      assert entered[use] != null && w[use] != null;
      VisitedRefers(w, head, visits[1..], 0, 0, use);
      ReferredToNothing(use, w[use], BindersOf(head, visits[1..], 0, 0));
    } else {
      VisitedBinds(w, head, visits[1..], at - 1, use);
    }
  }

  lemma {:induction false} AnalysedBinds(v: References, first: Node?, i: nat, at: nat, use: Node)
    requires Linked(first) && Analysed(v, first).Some? && i < |CEs(first)| && Linked(CEs(first)[i])
    requires use in UsesAt(CEs(first)[i], at) && use in v
    ensures use in Analysed(v, first).value && Analysed(v, first).value[use] != null
    decreases i
  {
    hide Visits, Visited, Uses, TestUses, Rebinds, BindersOf;
    var w := Passed(v, first).value;
    PassedRefers(v, first, 0, use);
    if i == 0 {
      if at < |Visits(first, null)| { VisitedBinds(v, first, Visits(first, null), at, use); }
      assert w[use] != null;
      AnalysedRefers(w, first.bottom, 0, use);
      ReferredToNothing(use, w[use], Binders(first.bottom, 0));
    } else {
      AnalysedBinds(w, first.bottom, i - 1, at, use);
    }
  }

  /** No binding from above has reached the address of a pattern. */
  lemma {:induction false} AddressIsFree(v: References, first: Node?, base: nat, i: nat, k: nat)
    requires Linked(first) && Analysed(v, first).Some? && i < |CEs(first)| && CEs(first)[i] in v
    requires CEs(first)[i].kind == PatternCE && CEs(first)[i].value.Some?
    ensures v[CEs(first)[i]] == null
    ensures k < |Binders(first, base)| && Binders(first, base)[k].ce < base + i ==>
      !Hits(Binders(first, base)[k], CEs(first)[i])
    decreases i
  {
    hide Visited, UnboundIn, TestUses, Hits, OwnBinders, IsBinder, Visits;
    var ce := CEs(first)[i];
    if i == 0 {
      if k < |Binders(first, base)| { NotAbove(first, base, k); }
    } else {
      var own := OwnBinders(first, base);
      PassedRefers(v, first, base, ce);
      ReferredToNothing(ce, v[ce], own);
      AddressIsFree(Passed(v, first).value, first.bottom, base + 1, i - 1, if k >= |own| then k - |own| else 0);
    }
  }

  lemma NotAbove(first: Node?, base: nat, k: nat)
    requires Linked(first) && k < |Binders(first, base)|
    ensures Binders(first, base)[k].ce >= base
  {
    BindersAre(first, base, k);
  }

  // ----- a rule with an error -----

  /** No binding of the fields is handed to its own name with another type. */
  ghost predicate Unmixed(head: Node, visits: seq<Visit>)
    requires Linked(head) && Visitable(visits)
  {
    forall i :: 0 <= i < |visits| && Binds(visits[i].field) ==> !Mixes(head, visits[i])
  }

  ghost predicate AllUnmixed(ce: Node?)
    requires Linked(ce)
    decreases Height(ce)
  {
    ce != null ==> (ce.kind == PatternCE ==> Unmixed(ce, Visits(ce, null))) && AllUnmixed(ce.bottom)
  }

  lemma UnmixedParts(head: Node, visits: seq<Visit>)
    requires Linked(head) && Visitable(visits) && Unmixed(head, visits) && visits != []
    ensures Unmixed(head, visits[1..]) && (Binds(visits[0].field) ==> !Mixes(head, visits[0]))
  {
  }

  /** The first use that fails the check: nothing up to its own field hits it. */
  lemma {:induction false} FindFieldError(v: References, head: Node, visits: seq<Visit>, ce: nat, field: nat)
    returns (at: nat, use: Node)
    requires Linked(head) && Visitable(visits) && Visited(v, head, visits).None?
    requires forall i :: 0 <= i < |visits| ==> Uses(visits[i].field) <= OwnReach(head, visits[i].field)
    requires Unmixed(head, visits)
    ensures at < |visits| && use in Uses(visits[at].field) && use in v && v[use] == null
    ensures var bs := BindersOf(head, visits, ce, field);
      forall k :: 0 <= k < |bs| && bs[k].field <= field + at ==> !Hits(bs[k], use)
    decreases |visits|
  {
    hide Uses, OwnReach, DriverReach, Entered, Left, Hits, Mixes, Unmixed;
    UnmixedParts(head, visits);
    var f := visits[0].field;
    var entered := Entered(v, head, f);
    var w := Left(entered, head, visits[0]);
    var bs, rest := BindersOf(head, visits, ce, field), BindersOf(head, visits[1..], ce, field + 1);
    if UnboundIn(entered, Uses(f)) {
      at := 0;
      use :| use in Uses(f) && use in entered && entered[use] == null;
    } else {
      at, use := FindFieldError(w, head, visits[1..], ce, field + 1);
      at := at + 1;
    }
    OwnMisses(v, head, visits[0], ce, field, use);
    forall k | 0 <= k < |bs| && bs[k].field <= field + at ensures !Hits(bs[k], use) {
      AtFront(head, visits, ce, field, k);
      if bs[k] in rest {
        LaterFields(head, visits[1..], ce, field + 1, bs[k]);
        var i :| 0 <= i < |rest| && rest[i] == bs[k];
        if at > 0 { assert !Hits(rest[i], use); }
      }
    }
  }

  /** A node that is still free has not been hit. */
  lemma OwnMisses(v: References, head: Node, visit: Visit, ce: nat, field: nat, n: Node)
    requires Linked(head) && Linked(visit.field) && Linked(visit.header)
    requires
      var entered := Entered(v, head, visit.field);
      || (n in OwnReach(head, visit.field) && n in entered && entered[n] == null)
      || (n in Left(entered, head, visit) && Left(entered, head, visit)[n] == null)
    ensures n in v && v[n] == null
    ensures Binds(visit.field) ==> !Hits(OwnBinder(head, visit, ce, field), n)
  {
    hide OwnReach, DriverReach;
  }

  lemma AtFront(head: Node, visits: seq<Visit>, ce: nat, field: nat, k: nat)
    requires Linked(head) && Visitable(visits) && k < |BindersOf(head, visits, ce, field)|
    ensures var b, rest := BindersOf(head, visits, ce, field)[k], BindersOf(head, visits[1..], ce, field + 1);
      || (Binds(visits[0].field) && b == OwnBinder(head, visits[0], ce, field))
      || b in rest
  {
    hide OwnBinder;
    var bs, rest := BindersOf(head, visits, ce, field), BindersOf(head, visits[1..], ce, field + 1);
    var n := if Binds(visits[0].field) then 1 else 0;
    if k >= n { assert bs[k] == rest[k - n]; }
  }

  lemma {:induction false} LaterFields(head: Node, visits: seq<Visit>, ce: nat, field: nat, b: Binder)
    requires Linked(head) && Visitable(visits) && b in BindersOf(head, visits, ce, field)
    ensures b.field >= field && b.ce == ce
    decreases |visits|
  {
    hide OwnReach, DriverReach;
    if b in BindersOf(head, visits[1..], ce, field + 1) { LaterFields(head, visits[1..], ce, field + 1, b); }
  }

  /** Where an analysis failed: at a use that nothing before it binds, or at a pattern address that
      something before it binds. */
  ghost predicate FailsAt(v: References, first: Node?, base: nat, place: Place, n: Node)
    requires Linked(first)
  {
    && place.ce < |CEs(first)| && Linked(CEs(first)[place.ce]) && n in v
    && var ce := CEs(first)[place.ce];
      || (n in UsesAt(ce, place.field) && v[n] == null
          && NoneHitsUpTo(Binders(first, base), base + place.ce, place.field, n))
      || (n == ce && ce.kind == PatternCE && ce.value.Some?
          && (v[ce] != null || SomeHitsAbove(Binders(first, base), base + place.ce, ce)))
  }

  ghost predicate NoneHitsUpTo(bs: seq<Binder>, ce: nat, field: nat, n: Node) {
    forall k :: 0 <= k < |bs| && (bs[k].ce < ce || (bs[k].ce == ce && bs[k].field <= field)) ==> !Hits(bs[k], n)
  }

  ghost predicate SomeHitsAbove(bs: seq<Binder>, ce: nat, n: Node) {
    exists k :: 0 <= k < |bs| && bs[k].ce < ce && Hits(bs[k], n)
  }

  lemma FindOwnError(v: References, first: Node, base: nat) returns (at: nat, n: Node)
    requires Linked(first) && Parsed(first) && Passed(v, first).None?
    requires first in v && AllUnmixed(first)
    ensures FailsAt(v, first, base, Place(0, at), n)
  {
    hide Hits, Parsed, Uses, TestUses, BindersOf, Visits, Binders, OwnReach, Visited, IsBinder;
    var visits := Visits(first, null);
    var bs := Binders(first, base);
    if Rebinds(v, first) {
      return 0, first;
    }
    forall k | 0 <= k < |bs| ensures bs[k].ce >= base && (bs[k].ce == base ==> bs[k] in OwnBinders(first, base)) {
      OwnOrBelow(first, base, k);
    }
    if first.kind == PatternCE && Visited(v, first, visits).None? {
      forall i | 0 <= i < |visits| ensures Uses(visits[i].field) <= OwnReach(first, visits[i].field) {
        UsesAreReached(first, i);
      }
      at, n := FindFieldError(v, first, visits, base, 0);
      var own := OwnBinders(first, base);
      assert own == BindersOf(first, visits, base, 0);
      forall k | 0 <= k < |bs| && (bs[k].ce < base || (bs[k].ce == base && bs[k].field <= at))
        ensures !Hits(bs[k], n)
      {
        var i :| 0 <= i < |own| && own[i] == bs[k];
      }
    } else {
      var w := if first.kind == PatternCE then Visited(v, first, visits).value else v;
      n :| n in TestUses(first) && n in w && w[n] == null;
      at := |visits|;
      if first.kind == PatternCE {
        VisitedKeys(v, first, visits);
        VisitedRefers(v, first, visits, base, 0, n);
      }
      ReferredToNothing(n, v[n], OwnBinders(first, base));
      assert NoneHitsUpTo(bs, base, at, n);
    }
  }

  lemma {:induction false} VisitedKeys(v: References, head: Node, visits: seq<Visit>)
    requires Linked(head) && Visitable(visits) && Visited(v, head, visits).Some?
    ensures Visited(v, head, visits).value.Keys == v.Keys
    decreases |visits|
  {
    hide Uses, OwnReach, DriverReach, UnboundIn, Taken;
    if visits != [] {
      VisitedKeys(Left(Entered(v, head, visits[0].field), head, visits[0]), head, visits[1..]);
    }
  }

  lemma OwnOrBelow(first: Node, base: nat, k: nat)
    requires Linked(first) && k < |Binders(first, base)|
    ensures Binders(first, base)[k].ce >= base
    ensures Binders(first, base)[k].ce == base ==> Binders(first, base)[k] in OwnBinders(first, base)
  {
    hide OwnBinders;
    NotAbove(first, base, k);
    var own := OwnBinders(first, base);
    if k >= |own| { NotAbove(first.bottom, base + 1, k - |own|); }
  }

  lemma OwnBindersAreHere(first: Node, base: nat)
    requires Linked(first)
    ensures forall k :: 0 <= k < |OwnBinders(first, base)| ==> OwnBinders(first, base)[k].ce == base
  {
    hide BindersOf, Visits;
    var own := OwnBinders(first, base);
    forall k | 0 <= k < |own| ensures own[k].ce == base {
      LaterFields(first, Visits(first, null), base, 0, own[k]);
    }
  }

  lemma FailsFurtherDown(v: References, first: Node, base: nat, place: Place, n: Node)
    requires Linked(first) && Passed(v, first).Some? && n in v
    requires FailsAt(Passed(v, first).value, first.bottom, base + 1, place, n)
    ensures FailsAt(v, first, base, Place(place.ce + 1, place.field), n)
  {
    hide Passed, OwnBinders, Hits, UsesAt;
    var own, rest := OwnBinders(first, base), Binders(first.bottom, base + 1);
    var bs := Binders(first, base);
    assert bs == own + rest;
    assert CEs(first) == [first] + CEs(first.bottom);
    PassedRefers(v, first, base, n);
    ReferredToNothing(n, v[n], own);
    OwnBindersAreHere(first, base);
    var ce := base + 1 + place.ce;
    if v[n] == null && NoneHits(own, n) && NoneHitsUpTo(rest, ce, place.field, n) {
      forall k | 0 <= k < |bs| && (bs[k].ce < ce || (bs[k].ce == ce && bs[k].field <= place.field))
        ensures !Hits(bs[k], n)
      {
        if k < |own| { assert bs[k] == own[k]; } else { assert bs[k] == rest[k - |own|]; }
      }
      assert NoneHitsUpTo(bs, ce, place.field, n);
    }
    if v[n] == null && !NoneHits(own, n) {
      var k :| 0 <= k < |own| && Hits(own[k], n);
      assert bs[k] == own[k];
      assert SomeHitsAbove(bs, ce, n);
    }
    if SomeHitsAbove(rest, ce, n) {
      var k :| 0 <= k < |rest| && rest[k].ce < ce && Hits(rest[k], n);
      assert bs[|own| + k] == rest[k];
      assert SomeHitsAbove(bs, ce, n);
    }
  }

  lemma PassedKeys(v: References, ce: Node)
    requires Linked(ce) && Passed(v, ce).Some?
    ensures Passed(v, ce).value.Keys == v.Keys
  {
    hide Visited, Visits, UnboundIn, TestUses, Rebinds;
    if ce.kind == PatternCE { VisitedKeys(v, ce, Visits(ce, null)); }
  }

  /** A failed analysis failed somewhere. */
  lemma {:induction false} FindError(v: References, first: Node?, base: nat) returns (place: Place, n: Node)
    requires Linked(first) && AllParsed(first) && Analysed(v, first).None? && Whole(first) <= v.Keys
    requires AllUnmixed(first)
    ensures FailsAt(v, first, base, place, n)
    decreases Height(first)
  {
    hide FailsAt, Passed, Parsed;
    assert first in v;
    if Passed(v, first).None? {
      var at;
      at, n := FindOwnError(v, first, base);
      place := Place(0, at);
    } else {
      PassedKeys(v, first);
      place, n := FindError(Passed(v, first).value, first.bottom, base + 1);
      FailsInView(Passed(v, first).value, first.bottom, base + 1, place, n);
      FailsFurtherDown(v, first, base, place, n);
      place := Place(place.ce + 1, place.field);
    }
  }

  lemma FailsInView(v: References, first: Node?, base: nat, place: Place, n: Node)
    requires Linked(first) && FailsAt(v, first, base, place, n)
    ensures n in v
  {
  }

  // ----- the main results -----

  /** Binding `k` of the rule is in scope at `place` and has the name of `o`. */
  ghost predicate Candidate(first: Node?, k: nat, o: Node, place: Place)
    requires Linked(first) && place.ce < |CEs(first)|
  {
    && k < |Binders(first, 0)|
    && Binders(first, 0)[k].ce < |CEs(first)|
    && InScope(first, Binders(first, 0)[k], o, place)
    && (o.kind == Variable || o.kind == PatternCE) && o.secondaryExpression == null
    && o.value == Binders(first, 0)[k].node.value
  }

  /** A rule, as the parser leaves it: every node refers to nothing yet. */
  ghost predicate Fresh(v: References, first: Node?)
    requires Linked(first)
  {
    Tree(first) && AllParsed(first) && Whole(first) <= v.Keys && forall n :: n in Whole(first) ==> v[n] == null
  }

  lemma HitsAreCandidates(first: Node?, o: Node, place: Place, k: nat)
    requires Linked(first) && Tree(first) && AllParsed(first) && At(o, first, place) && k < |Binders(first, 0)|
    ensures Hits(Binders(first, 0)[k], o) <==> Candidate(first, k, o, place)
  {
    hide InScope, Tree, Sits, BindsIn;
    BindersAre(first, 0, k);
    ReachIsScope(first, Binders(first, 0)[k], o, place);
  }

  lemma PlaceInWhole(o: Node, first: Node?, place: Place)
    requires Linked(first) && AllParsed(first) && At(o, first, place)
    ensures o in Whole(first)
  {
    hide Sits, Own;
    Tail(first, place.ce);
    SitsInOwn(o, CEs(first)[place.ce], place.field);
    OwnInWhole(CEs(first)[place.ce], o);
  }

  /** What a node refers to comes of the bindings that have it in their scope. */
  lemma RefersByScope(v: References, first: Node?, o: Node, place: Place)
    requires Linked(first) && Fresh(v, first) && Analysed(v, first).Some? && At(o, first, place)
    ensures o in Analysed(v, first).value
    ensures Analysed(v, first).value[o] == Referred(o, null, Binders(first, 0))
    ensures forall i :: 0 <= i < |Binders(first, 0)| ==>
      (Hits(Binders(first, 0)[i], o) <==> Candidate(first, i, o, place))
  {
    hide Candidate, Hits, Sits, Tree, Analysed, Binders, AllParsed, CEs;
    PlaceInWhole(o, first, place);
    AnalysedRefers(v, first, 0, o);
    var bs := Binders(first, 0);
    forall i | 0 <= i < |bs| ensures Hits(bs[i], o) <==> Candidate(first, i, o, place) {
      HitsAreCandidates(first, o, place, i);
    }
  }

  lemma CandidateIsBinder(first: Node?, k: nat, o: Node, place: Place)
    requires Linked(first) && place.ce < |CEs(first)| && Candidate(first, k, o, place)
    ensures k < |Binders(first, 0)|
  {
  }

  /** Every use refers to the nearest binding in its scope that agrees with it. */
  lemma NearestBinding(v: References, first: Node?, o: Node, place: Place, k: nat)
    requires Linked(first) && Fresh(v, first) && Analysed(v, first).Some? && At(o, first, place)
    requires Candidate(first, k, o, place) && Agrees(Binders(first, 0)[k].node, o)
    requires forall i :: k < i && Candidate(first, i, o, place) ==> !Agrees(Binders(first, 0)[i].node, o)
    ensures o in Analysed(v, first).value && Analysed(v, first).value[o] == Binders(first, 0)[k].node
  {
    hide Candidate, Hits, Fresh, Analysed, Binders, CEs, Agrees, Linked, Sits;
    RefersByScope(v, first, o, place);
    CandidateIsBinder(first, k, o, place);
    LastAgreeingWins(o, null, Binders(first, 0), k);
  }

  /** When no later binding in scope agrees with a use, it refers to the earliest one. */
  lemma EarliestBinding(v: References, first: Node?, o: Node, place: Place, k: nat)
    requires Linked(first) && Fresh(v, first) && Analysed(v, first).Some? && At(o, first, place)
    requires Candidate(first, k, o, place) && forall i :: 0 <= i < k ==> !Candidate(first, i, o, place)
    requires forall i :: k < i && Candidate(first, i, o, place) ==> !Agrees(Binders(first, 0)[i].node, o)
    ensures o in Analysed(v, first).value && Analysed(v, first).value[o] == Binders(first, 0)[k].node
  {
    hide Candidate, Hits, Fresh, Analysed, Binders, CEs, Agrees, Linked, Sits;
    RefersByScope(v, first, o, place);
    CandidateIsBinder(first, k, o, place);
    FirstStays(o, Binders(first, 0), k);
  }

  /** A use that nothing in whose scope binds its name. */
  ghost predicate UnboundAt(first: Node?, place: Place, use: Node)
    requires Linked(first)
  {
    && place.ce < |CEs(first)| && Linked(CEs(first)[place.ce]) && use in UsesAt(CEs(first)[place.ce], place.field)
    && forall k :: !Candidate(first, k, use, place)
  }

  /** A pattern address whose name a binding above has in its scope. */
  ghost predicate ReboundAt(first: Node?, i: nat)
    requires Linked(first)
  {
    && i < |CEs(first)| && CEs(first)[i].kind == PatternCE && CEs(first)[i].value.Some?
    && exists k :: Candidate(first, k, CEs(first)[i], Place(i, 0))
  }

  lemma UnboundIsRefused(v: References, first: Node?, place: Place, use: Node)
    requires Linked(first) && Fresh(v, first) && UnboundAt(first, place, use)
    ensures Analysed(v, first).None?
  {
    hide Candidate, Hits, Tree, Analysed, Binders, Parsed, UsesAt, CEs, Sits;
    if Analysed(v, first).Some? {
      Tail(first, place.ce);
      UsesSit(CEs(first)[place.ce], place.field, use);
      PlaceInWhole(use, first, place);
      AnalysedBinds(v, first, place.ce, place.field, use);
      RefersByScope(v, first, use, place);
      ReferredToNothing(use, null, Binders(first, 0));
    }
  }

  lemma CandidateIsAbove(first: Node?, i: nat, k: nat)
    requires Linked(first) && AllParsed(first) && i < |CEs(first)| && Linked(CEs(first)[i])
    requires Candidate(first, k, CEs(first)[i], Place(i, 0))
    ensures Binders(first, 0)[k].ce < i
  {
    hide Shaped, NoneBehind, Binders, CEs, Visits, BinderReach;
    BindersAre(first, 0, k);
    Tail(first, i);
    HeadFirst(CEs(first)[i]);
  }

  lemma ReboundIsRefused(v: References, first: Node?, i: nat)
    requires Linked(first) && Fresh(v, first) && ReboundAt(first, i)
    ensures Analysed(v, first).None?
  {
    hide Candidate, Hits, Tree, Analysed, Binders, Parsed, CEs;
    if Analysed(v, first).Some? {
      var ce := CEs(first)[i];
      var k: nat :| Candidate(first, k, ce, Place(i, 0));
      Tail(first, i);
      PlaceInWhole(ce, first, Place(i, 0));
      CandidateIsBinder(first, k, ce, Place(i, 0));
      HitsAreCandidates(first, ce, Place(i, 0), k);
      CandidateIsAbove(first, i, k);
      AddressIsFree(v, first, 0, i, k);
    }
  }

  lemma HeadSits(first: Node?, i: nat)
    requires Linked(first) && i < |CEs(first)| && Linked(CEs(first)[i])
    ensures At(CEs(first)[i], first, Place(i, 0))
  {
  }

  lemma NoCandidates(first: Node?, place: Place, n: Node)
    requires Linked(first) && Tree(first) && AllParsed(first) && At(n, first, place)
    requires NoneHitsUpTo(Binders(first, 0), place.ce, place.field, n)
    ensures forall k :: !Candidate(first, k, n, place)
  {
    hide Hits, Tree, Binders, AllParsed, CEs, Sits;
    forall k: nat ensures !Candidate(first, k, n, place) {
      if k < |Binders(first, 0)| { HitsAreCandidates(first, n, place, k); }
    }
  }

  /** A rule that mixes no types is refused for a use that nothing binds or an address that something binds. */
  lemma RefusedForAReason(v: References, first: Node?)
    requires Linked(first) && Fresh(v, first) && Analysed(v, first).None? && AllUnmixed(first)
    ensures (exists place, use :: UnboundAt(first, place, use)) || (exists i :: ReboundAt(first, i))
  {
    hide Hits, Tree, Analysed, Binders, Parsed, CEs, Sits, Candidate, UsesAt, Visits;
    var place, n := FindError(v, first, 0);
    var ce := CEs(first)[place.ce];
    var bs := Binders(first, 0);
    Tail(first, place.ce);
    if n in UsesAt(ce, place.field) && NoneHitsUpTo(bs, place.ce, place.field, n) {
      UsesSit(ce, place.field, n);
      NoCandidates(first, place, n);
      assert UnboundAt(first, place, n);
    } else {
      HeadSits(first, place.ce);
      PlaceInWhole(ce, first, Place(place.ce, 0));
      var k :| 0 <= k < |bs| && bs[k].ce < place.ce && Hits(bs[k], ce);
      HitsAreCandidates(first, ce, Place(place.ce, 0), k);
      assert ReboundAt(first, place.ce);
    }
  }

  // ----- the order of the document -----

  lemma {:induction false} FieldsInDocumentOrder(head: Node, visits: seq<Visit>, ce: nat, field: nat, i: nat, k: nat)
    requires Linked(head) && Visitable(visits) && i < k < |BindersOf(head, visits, ce, field)|
    ensures Before(BindersOf(head, visits, ce, field)[i], BindersOf(head, visits, ce, field)[k])
    decreases |visits|
  {
    hide OwnReach, DriverReach;
    var bs, rest := BindersOf(head, visits, ce, field), BindersOf(head, visits[1..], ce, field + 1);
    var n := if Binds(visits[0].field) then 1 else 0;
    assert bs[k] == rest[k - n];
    LaterFields(head, visits[1..], ce, field + 1, bs[k]);
    if i >= n {
      FieldsInDocumentOrder(head, visits[1..], ce, field + 1, i - n, k - n);
    }
  }

  /** The bindings of a rule are listed in the order of the document. */
  lemma {:induction false} InDocumentOrder(first: Node?, base: nat, i: nat, k: nat)
    requires Linked(first) && i < k < |Binders(first, base)|
    ensures Before(Binders(first, base)[i], Binders(first, base)[k])
    decreases Height(first)
  {
    hide Visits, BindersOf, IsBinder;
    var own, bs := OwnBinders(first, base), Binders(first, base);
    OwnBindersAreHere(first, base);
    if k < |own| {
      assert bs[i] == own[i] && bs[k] == own[k];
      FieldsInDocumentOrder(first, Visits(first, null), base, 0, i, k);
    } else {
      NotAbove(first.bottom, base + 1, k - |own|);
      if i >= |own| { InDocumentOrder(first.bottom, base + 1, i - |own|, k - |own|); }
    }
  }

  /** No two bindings of a rule are the same node. */
  lemma BindingsDiffer(first: Node?, i: nat, k: nat)
    requires Linked(first) && Tree(first) && AllParsed(first) && i < k < |Binders(first, 0)|
    ensures Binders(first, 0)[i].node != Binders(first, 0)[k].node
  {
    hide Tree, Shaped, NoneBehind, Visits, Binders, BindsIn, Sits, Own;
    var a, b := Binders(first, 0)[i], Binders(first, 0)[k];
    InDocumentOrder(first, 0, i, k);
    BindersAre(first, 0, i);
    BindersAre(first, 0, k);
    BinderSits(first, a);
    BinderSits(first, b);
    if a.node == b.node {
      if a.ce == b.ce {
        ReachIsScope(first, a, a.node, Place(a.ce, a.field));
        ReachIsScope(first, a, a.node, Place(b.ce, b.field));
      } else {
        SitsBelow(first, a.ce, b.ce, b.node, b.field);
        SitsInOwn(a.node, CEs(first)[a.ce], a.field);
        Tail(first, a.ce);
        PartsAreApart(CEs(first)[a.ce]);
      }
    }
  }

  lemma BinderSits(first: Node?, b: Binder)
    requires Linked(first) && AllParsed(first) && IsBinder(first, 0, b)
    ensures At(b.node, first, Place(b.ce, b.field))
    ensures Parsed(CEs(first)[b.ce])
  {
    hide Shaped, NoneBehind, Tree, Visits, BinderReach;
    Tail(first, b.ce);
    HeadFirst(CEs(first)[b.ce]);
  }

  /** With the last binding in scope at hand: a use refers to it unless it has another pattern and another kind
      of pattern, is not the address of a pattern, and there is an earlier binding. */
  lemma RefersToNearestUnless(v: References, first: Node?, o: Node, place: Place, k: nat)
    requires Linked(first) && Fresh(v, first) && Analysed(v, first).Some? && At(o, first, place)
    requires Candidate(first, k, o, place) && forall i :: k < i ==> !Candidate(first, i, o, place)
    ensures o in Analysed(v, first).value
    ensures Analysed(v, first).value[o] == Binders(first, 0)[k].node
            <==> o.kind == PatternCE || Binders(first, 0)[k].node.pattern == o.pattern
                 || Binders(first, 0)[k].node.patternType == o.patternType
                 || forall i :: 0 <= i < k ==> !Candidate(first, i, o, place)
  {
    hide Candidate, Hits, Tree, AllParsed, Analysed, Binders, CEs, Sits;
    var bs := Binders(first, 0);
    CandidateIsBinder(first, k, o, place);
    RefersByScope(v, first, o, place);
    if Agrees(bs[k].node, o) {
      NearestBinding(v, first, o, place, k);
    } else if i: nat :| i < k && Candidate(first, i, o, place) {
      var m := RefersToEarlier(o, bs, k);
      BindingsDiffer(first, m, k);
    } else {
      EarliestBinding(v, first, o, place, k);
    }
  }

  lemma RefersToEarlier(o: Node, bs: seq<Binder>, k: nat) returns (m: nat)
    requires k < |bs| && !NoneHits(bs[..k], o) && Hits(bs[k], o) && !Agrees(bs[k].node, o)
    requires forall i :: k < i < |bs| ==> !Hits(bs[i], o)
    ensures m < k && Referred(o, null, bs) == bs[m].node
  {
    var before, after := bs[..k], bs[k + 1..];
    assert bs == before + ([bs[k]] + after);
    m := SomeHit(o, before);
    ReferredTwice(o, null, before, [bs[k]] + after);
    ReferredTwice(o, before[m].node, [bs[k]], after);
    assert Referred(o, before[m].node, [bs[k]]) == before[m].node;
    forall i | 0 <= i < |after| ensures !Hits(after[i], o) {
      assert after[i] == bs[k + 1 + i];
    }
    NoneAgrees(o, before[m].node, after);
  }

  lemma {:induction false} SomeHit(o: Node, bs: seq<Binder>) returns (m: nat)
    requires !NoneHits(bs, o)
    ensures m < |bs| && Referred(o, null, bs) == bs[m].node
    decreases |bs|
  {
    var n := |bs| - 1;
    assert bs == bs[..n] + [bs[n]];
    ReferredTwice(o, null, bs[..n], [bs[n]]);
    if NoneHits(bs[..n], o) {
      ReferredToNothing(o, null, bs[..n]);
      assert forall i :: 0 <= i < n ==> bs[..n][i] == bs[i];
      m := n;
    } else {
      m := SomeHit(o, bs[..n]);
      if Referred(o, null, bs) != bs[m].node { m := n; }
    }
  }

  /** The variables of a test are in no pattern and have no pattern type: they refer to the earliest
      binding in scope, however many come nearer. */
  lemma TestsReferToEarliest(v: References, first: Node?, o: Node, place: Place, k: nat)
    requires Linked(first) && Fresh(v, first) && Analysed(v, first).Some? && At(o, first, place)
    requires Candidate(first, k, o, place) && forall i :: 0 <= i < k ==> !Candidate(first, i, o, place)
    requires o.kind == Variable && o.pattern == -1 && o.patternType == 0
    requires forall b :: b in Binders(first, 0) ==> b.node.pattern >= 0 && b.node.patternType > 0
    ensures o in Analysed(v, first).value && Analysed(v, first).value[o] == Binders(first, 0)[k].node
  {
    hide Candidate, Hits, Fresh, Analysed, Binders, CEs, Linked, Sits;
    CandidateIsBinder(first, k, o, place);
    forall i: nat | k < i && Candidate(first, i, o, place)
      ensures i < |Binders(first, 0)| && !Agrees(Binders(first, 0)[i].node, o)
    {
      CandidateIsBinder(first, i, o, place);
      assert Binders(first, 0)[i] in Binders(first, 0);
    }
    EarliestBinding(v, first, o, place, k);
  }

  /** A pattern like (p ?x), with one variable and no constraints. */
  ghost predicate Plain(ce: Node, x: Node) {
    && ce.kind == PatternCE && ce.value == None && !ce.multifieldSlot && !ce.negated && !ce.existsCE
    && ce.beginNandDepth == ce.endNandDepth == 1
    && ce.expression == null && ce.secondaryExpression == null && ce.right == x
    && x.kind == Variable && !x.multifieldSlot && x.value.Some?
    && x.expression == null && x.secondaryExpression == null && x.right == null && x.bottom == null
  }

  lemma PlainReach(ce: Node, x: Node)
    requires Linked(ce) && Plain(ce, x)
    ensures Reach(null, 1) == {} && Reach(ce, 1) == {ce, x} + Reach(ce.bottom, 1)
    ensures Strict(null, 1) == {} && Strict(ce, 1) == {ce, x} + Strict(ce.bottom, 1)
    ensures Whole(null) == {} && Whole(ce) == {ce, x} + Whole(ce.bottom) && Whole(ce.right) == {x}
  {
    assert Reach(x, 1) == Strict(x, 1) == {x};
  }

  lemma PlainTree(ce: Node, x: Node)
    requires Linked(ce) && Plain(ce, x) && Parsed(ce)
    requires Tree(ce.bottom) && AllParsed(ce.bottom) && ce !in Whole(ce.bottom) && x !in Whole(ce.bottom)
    ensures Tree(ce) && AllParsed(ce)
  {
    hide Parsed;
    assert Whole(null) == {} && Whole(x) == {x} && Tree(null);
    assert Tree(x);
  }

  lemma PlainVisits(ce: Node, x: Node)
    requires Linked(ce) && Plain(ce, x)
    ensures Visits(ce, null) == [Visit(ce, null), Visit(x, null)]
  {
    assert Visits(x, null) == [Visit(x, null)] + Visits(null, null);
    assert Visits(ce, null) == [Visit(ce, null)] + Visits(x, null);
  }

  lemma PlainIs(v: References, ce: Node, x: Node, k: nat)
    requires Linked(ce) && Plain(ce, x) && !Clash(Strict(ce.bottom, 1), x.value, x.multifield, false)
    ensures Parsed(ce)
    ensures Passed(v, ce) == Some(Wrote(v, Reach(ce.bottom, 1), x.value, x))
    ensures Binders(ce, k) == [Binder(x, k, 1, Reach(ce.bottom, 1))] + Binders(ce.bottom, k + 1)
  {
    hide Reach, Strict, Clash, Wrote, Visits, Whole;
    PlainReach(ce, x);
    PlainVisits(ce, x);
    WroteNothing(v, x.value, x);
    var last := [Visit(x, null)];
    assert Visits(ce, null)[1..] == last && last[1..] == [];
    assert DriverReach(ce, last[0]) == Reach(ce.bottom, 1) && OwnReach(ce, x) == {};
    assert Entered(v, ce, x) == v && Entered(v, ce, ce) == v;
    assert Compared(ce, last[0]) == Strict(ce.bottom, 1);
    assert Left(v, ce, last[0]) == Wrote(v, Reach(ce.bottom, 1), x.value, x);
    assert Visited(v, ce, last) == Some(Wrote(v, Reach(ce.bottom, 1), x.value, x));
    assert BindersOf(ce, last, k, 1) == [Binder(x, k, 1, Reach(ce.bottom, 1))];
    assert BindersOf(ce, Visits(ce, null), k, 0) == BindersOf(ce, last, k, 1);
  }

  /** The rest of a rule like (a ?x) (b ?x) (test (f ?x)), from its test on. */
  ghost predicate PlainTest(t: Node, call: Node, use: Node) {
    && t.kind == TestCE && t.value == None && !t.multifieldSlot && t.beginNandDepth == t.endNandDepth == 1
    && t.expression == call && t.secondaryExpression == null && t.right == null && t.bottom == null
    && call.kind == FunctionCall && call.bottom == use
    && call.expression == null && call.secondaryExpression == null && call.right == null
    && use.kind == Variable && use.pattern == -1 && use.patternType == 0
    && use.expression == null && use.secondaryExpression == null && use.right == null && use.bottom == null
  }

  lemma PlainTestIs(v: References, t: Node, call: Node, use: Node)
    requires Linked(t) && PlainTest(t, call, use)
    ensures Parsed(t) && Tree(t) && CEs(t) == [t] && Binders(t, 2) == []
    ensures Whole(t) == Reach(t, 1) == {t, call, use} && Tests(t) == {call, use} && Strict(t, 1) == {t}
    ensures use in v && v[use] != null ==> Analysed(v, t) == Some(v)
    ensures Sits(use, t, 1)
  {
    assert Whole(null) == Reach(null, 1) == {} && ExpressionVariables(null) == {} && Tree(null);
    assert Whole(use) == Reach(use, 1) == {use} && ExpressionVariables(use) == {use} && Tree(use);
    assert Tree(call);
    assert Whole(call) == Reach(call, 1) == {call, use} && ExpressionVariables(call) == {use};
    assert Visits(t, null) == [Visit(t, null)] + Visits(null, null);
  }

  /** A rule like (a ?x) (b ?x) (test (f ?x)). */
  ghost predicate TestAfterTwo(p: Node, x: Node, q: Node, y: Node, t: Node, call: Node, use: Node) {
    && Plain(p, x) && p.bottom == q && Plain(q, y) && q.bottom == t && PlainTest(t, call, use)
    && x.value == y.value == use.value && x.multifield == y.multifield && x != y && x != use && y != use
  }

  lemma TestAfterTwoUnmixed(p: Node, x: Node, q: Node, y: Node, t: Node, call: Node, use: Node)
    requires Linked(p) && TestAfterTwo(p, x, q, y, t, call, use)
    ensures !Clash(Strict(q, 1), x.value, x.multifield, false) && !Clash(Strict(t, 1), y.value, y.multifield, false)
  {
    hide Whole, Reach, Strict, Visits, Sits, Parsed, Tree, Binders, CEs;
    PlainReach(q, y);
    PlainTestIs(map[], t, call, use);
  }

  lemma TestAfterTwoHolds(p: Node, x: Node, q: Node, y: Node, t: Node, call: Node, use: Node)
    requires Linked(p) && TestAfterTwo(p, x, q, y, t, call, use)
    ensures Tree(p) && AllParsed(p)
    ensures Whole(p) == {p, x} + Reach(q, 1) && Reach(q, 1) == {q, y} + Reach(t, 1) && Reach(t, 1) == {t, call, use}
  {
    hide Whole, Reach, Strict, Clash, Sits, Parsed, Tree, Binders, CEs;
    TestAfterTwoUnmixed(p, x, q, y, t, call, use);
    PlainReach(p, x);
    PlainReach(q, y);
    PlainIs(map[], p, x, 0);
    PlainIs(map[], q, y, 1);
    PlainTestIs(map[], t, call, use);
    PlainTree(q, y);
    PlainTree(p, x);
  }

  lemma TestAfterTwoIs(p: Node, x: Node, q: Node, y: Node, t: Node, call: Node, use: Node)
    requires Linked(p) && TestAfterTwo(p, x, q, y, t, call, use)
    ensures CEs(p) == [p, q, t] && Linked(t) && Sits(use, t, 1)
    ensures Binders(p, 0) == [Binder(x, 0, 1, Reach(q, 1)), Binder(y, 1, 1, Reach(t, 1))]
  {
    hide Whole, Reach, Visits, Sits, Parsed, Tree, Passed, Wrote, Binders, Strict, Clash;
    TestAfterTwoUnmixed(p, x, q, y, t, call, use);
    PlainIs(map[], p, x, 0);
    PlainIs(map[], q, y, 1);
    PlainTestIs(map[], t, call, use);
    assert CEs(q) == [q] + CEs(t) && CEs(p) == [p] + CEs(q);
  }

  /** With both patterns for facts or both for objects, the test of such a rule refers to the first ?x,
      although the second is nearer. */
  lemma TestRefersToFirst(v: References, p: Node, x: Node, q: Node, y: Node, t: Node, call: Node, use: Node)
    requires Linked(p) && TestAfterTwo(p, x, q, y, t, call, use)
    requires x.pattern == 0 && y.pattern == 1 && x.patternType == y.patternType > 0
    requires v.Keys == Whole(p) && forall n :: n in v ==> v[n] == null
    ensures Fresh(v, p) && CEs(p) == [p, q, t] && At(use, p, Place(2, 1))
    ensures Binders(p, 0) == [Binder(x, 0, 1, Reach(q, 1)), Binder(y, 1, 1, Reach(t, 1))]
    ensures Candidate(p, 0, use, Place(2, 1)) && Candidate(p, 1, use, Place(2, 1))
    ensures Analysed(v, p).Some? && use in Analysed(v, p).value && Analysed(v, p).value[use] == x
  {
    hide Whole, Reach, Strict, Clash, Visits, Sits, Parsed, Tree, AllParsed, Binders, CEs, Passed;
    TestAfterTwoUnmixed(p, x, q, y, t, call, use);
    TestAfterTwoHolds(p, x, q, y, t, call, use);
    TestAfterTwoIs(p, x, q, y, t, call, use);
    var w := Wrote(v, Reach(q, 1), x.value, x);
    var z := Wrote(w, Reach(t, 1), y.value, y);
    PlainIs(v, p, x, 0);
    PlainIs(w, q, y, 1);
    PlainTestIs(z, t, call, use);
    assert w[use] == x && z[use] == x;
  }

  lemma {:induction false} FieldIsListed(head: Node, visits: seq<Visit>, ce: nat, field: nat, at: nat) returns (k: nat)
    requires Linked(head) && Visitable(visits) && at < |visits| && Binds(visits[at].field)
    ensures k < |BindersOf(head, visits, ce, field)|
    ensures BindersOf(head, visits, ce, field)[k] == OwnBinder(head, visits[at], ce, field + at)
    decreases |visits|
  {
    hide OwnBinder;
    if at == 0 {
      k := 0;
    } else {
      k := FieldIsListed(head, visits[1..], ce, field + 1, at - 1);
      if Binds(visits[0].field) { k := k + 1; }
    }
  }

  /** Every binding that the walk over a pattern comes to is listed. */
  lemma {:induction false} EveryBindingIsListed(first: Node?, base: nat, ce: nat, at: nat) returns (k: nat)
    requires Linked(first) && ce < |CEs(first)| && CEs(first)[ce].kind == PatternCE && Linked(CEs(first)[ce])
    requires at < |Visits(CEs(first)[ce], null)| && Binds(Visits(CEs(first)[ce], null)[at].field)
    ensures k < |Binders(first, base)|
    ensures var b := Binders(first, base)[k];
      b.ce == base + ce && b.field == at && b.node == Visits(CEs(first)[ce], null)[at].field
    decreases ce
  {
    hide Visits, BindersOf, DriverReach, OwnReach;
    var own := OwnBinders(first, base);
    if ce == 0 {
      k := FieldIsListed(first, Visits(first, null), base, 0, at);
      assert Binders(first, base)[k] == own[k];
    } else {
      var i := EveryBindingIsListed(first.bottom, base + 1, ce - 1, at);
      k := |own| + i;
      assert Binders(first, base)[k] == Binders(first.bottom, base + 1)[i];
    }
  }

  // ----- slots without fields -----

  /** The field stands in its header, or behind it when the header has no fields. */
  ghost predicate GoesBy(field: Node?, header: Node?)
    requires Linked(field) && Linked(header)
  {
    && Tree(field) && Tree(header)
    && (header != null ==> Whole(field) <= Whole(if header.bottom == null then header.right else header.bottom))
  }

  lemma StepsGoBy(field: Node, header: Node?)
    requires Walkable(field, header) && GoesBy(field, header) && (field.multifieldSlot ==> field.bottom != null)
    ensures var v := Entry(field, header);
      && Linked(v.field) && Linked(v.header) && GoesBy(v.field, v.header)
      && Walkable(Onward(v).0, Onward(v).1) && GoesBy(Onward(v).0, Onward(v).1) && Tree(Onward(v).0)
  {
    StepsWithin(field, header);
  }

  lemma RestGoesBy(slot: Node)
    requires Linked(slot) && Tree(slot) && slot.bottom == null
    ensures GoesBy(slot.right, slot)
  {
  }

  lemma {:induction false} VisitsGoBy(field: Node?, header: Node?, i: nat)
    requires Walkable(field, header) && Tree(field) && GoesBy(field, header) && i < |Visits(field, header)|
    ensures GoesBy(Visits(field, header)[i].field, Visits(field, header)[i].header)
    decreases if header == null then 2 * Height(field) else 2 * Height(header) - 1, Height(field)
  {
    hide GoesBy, Whole, Region, After, HeaderRest;
    if field.multifieldSlot && field.bottom == null {
      RestGoesBy(field);
      VisitsGoBy(field.right, field, i);
    } else {
      StepsGoBy(field, header);
      StepsWithin(field, header);
      var (f, h) := Onward(Entry(field, header));
      if i > 0 { VisitsGoBy(f, h, i - 1); }
    }
  }

  lemma FieldsGoBy(ce: Node, i: nat)
    requires Linked(ce) && Tree(ce) && i < |Visits(ce.right, null)|
    ensures GoesBy(Visits(ce.right, null)[i].field, Visits(ce.right, null)[i].header)
  {
    VisitsGoBy(ce.right, null, i);
  }

  lemma BehindItsHeader(v: Visit)
    requires Linked(v.field) && Linked(v.header) && GoesBy(v.field, v.header)
    ensures v.field in After(v) <==> v.header != null && v.header.bottom == null
    ensures v.field !in Whole(v.field.bottom)
  {
    assert v.field in Whole(v.field);
    NotBelowItself(v.field);
  }

  /** A binding is handed to itself exactly when it is visited behind a multifield slot without fields. */
  lemma ReachesItselfIff(ce: Node, at: nat)
    requires Linked(ce) && Tree(ce) && Shaped(ce) && 0 < at < |Visits(ce, null)|
    ensures var v := Visits(ce, null)[at];
      v.field in BinderReach(ce, at) <==> v.header != null && v.header.bottom == null
  {
    hide BinderReach, Visits, NoCEs, Whole, Tree, After, Reach, Tests;
    HeadFirst(ce);
    ReachOfField(ce, at);
    PartsAreApart(ce);
    FieldsGoBy(ce, at - 1);
    VisitsAreWithin(ce.right, null, at - 1);
    ReachIsInWhole(ce.bottom, ce.beginNandDepth);
    BehindItsHeader(Visits(ce, null)[at]);
  }

  /** What a binding reaches at a place of its pattern, which only holds nodes of its own, is what comes after it. */
  ghost predicate Scoped(ce: Node, p: nat, o: Node, q: nat)
    requires Linked(ce) && p < |Visits(ce, null)|
  {
    Sits(o, ce, q) ==> (o in BinderReach(ce, p) <==> p < q || (p == q && o != Visits(ce, null)[p].field))
  }

  ghost predicate AllScoped(ce: Node)
    requires Linked(ce)
  {
    forall p: nat, o, q: nat :: o in Own(ce) && p < |Visits(ce, null)| && Binds(Visits(ce, null)[p].field) ==>
      Scoped(ce, p, o, q)
  }

  /** The bindings of a pattern keep to their scopes exactly when none is visited behind a multifield slot
      without fields. */
  lemma ScopesAreKeptIff(ce: Node)
    requires Linked(ce) && Tree(ce) && Shaped(ce) && ce.kind == PatternCE
    ensures AllScoped(ce) <==> NoneBehind(Visits(ce, null))
  {
    hide BinderReach, Visits, Tree, Shaped, NoneBehind, Sits, Own;
    if NoneBehind(Visits(ce, null)) {
      forall p: nat, o, q: nat | o in Own(ce) && p < |Visits(ce, null)| && Binds(Visits(ce, null)[p].field)
        ensures Scoped(ce, p, o, q)
      {
        if Sits(o, ce, q) { ReachInPattern(ce, p, o, q); }
      }
    } else {
      var i := FirstBehind(Visits(ce, null));
      HeadFirst(ce);
      ReachesItselfIff(ce, i);
      FieldSits(ce, i);
      assert !Scoped(ce, i, Visits(ce, null)[i].field, i);
    }
  }

  lemma FieldSits(ce: Node, i: nat)
    requires Linked(ce) && Shaped(ce) && 0 < i < |Visits(ce, null)|
    ensures Sits(Visits(ce, null)[i].field, ce, i) && Visits(ce, null)[i].field in Own(ce)
  {
    hide Visits, Shaped;
    SitsInOwn(Visits(ce, null)[i].field, ce, i);
  }

  lemma FirstBehind(visits: seq<Visit>) returns (i: nat)
    requires !NoneBehind(visits)
    ensures i < |visits| && Binds(visits[i].field) && IsEmpty(visits[i].header)
  {
    i :| i < |visits| && Binds(visits[i].field) && IsEmpty(visits[i].header);
  }

  /** So the only binding of a pattern like (p (first) (second ?x)) refers to itself. */
  lemma EmptySlotMisleads(v: References, ce: Node, slot: Node, x: Node)
    requires Linked(ce) && ce.kind == PatternCE && ce.value == None && !ce.multifieldSlot && ce.right == slot
    requires ce.bottom == null && ce.expression == null && ce.secondaryExpression == null
    requires slot.multifieldSlot && slot.bottom == null && slot.right == x && slot.kind == Other
    requires x.kind == Variable && !x.multifieldSlot && x.right == null && x.bottom == null
    requires x.secondaryExpression == null && x.expression == null && x in v && v[x] == null
    ensures Analysed(v, ce).Some? && x in Analysed(v, ce).value && Analysed(v, ce).value[x] == x
  {
    var visits := Visits(ce, null);
    assert Visits(x, slot) == [Visit(x, slot)] + Visits(x, null);
    assert Visits(x, null) == [Visit(x, null)] + Visits(null, null);
    assert Visits(ce, null) == [Visit(ce, null)] + Visits(slot, null);
    assert visits == [Visit(ce, null), Visit(x, slot), Visit(x, null)];
    var w := Left(Entered(v, ce, x), ce, Visit(x, slot));
    assert visits[1..] == [Visit(x, slot), Visit(x, null)] && visits[1..][1..] == [Visit(x, null)];
    assert w[x] == x;
    assert visits[1..][1..][1..] == [];
    assert Visited(w, ce, [Visit(x, null)]) == Some(Left(Entered(w, ce, x), ce, Visit(x, null)));
    assert Visited(v, ce, visits[1..]) == Visited(w, ce, [Visit(x, null)]);
    assert Visited(v, ce, visits) == Visited(v, ce, visits[1..]);
  }
}
