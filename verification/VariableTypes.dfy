/** Single-field and multifield variables of one name: where the analysis compares their types, and
    with that, exactly when a rule is refused. */
module VariableTypes {
  import opened LhsNode
  import opened VariableAnalysis
  import opened VariableScope

  /** The nodes that are in no expression. */
  ghost function Spine(n: Node?): set<Node>
    requires Linked(n)
    decreases Height(n)
  {
    if n == null then {} else {n} + Spine(n.right) + Spine(n.bottom)
  }

  lemma {:induction false} SpineIsInWhole(n: Node?)
    requires Linked(n)
    ensures Spine(n) <= Whole(n)
    decreases Height(n)
  {
    if n != null {
      SpineIsInWhole(n.right);
      SpineIsInWhole(n.bottom);
    }
  }

  lemma {:induction false} StrictIsWithin(n: Node?, startDepth: int)
    requires Linked(n)
    ensures Strict(n, startDepth) <= Spine(n) && Strict(n, startDepth) <= Reach(n, startDepth)
    decreases Height(n)
  {
    if n != null {
      StrictIsWithin(n.right, startDepth);
      StrictIsWithin(n.bottom, startDepth);
    }
  }

  /** Types are compared on all nodes in reach that are in no expression. */
  lemma {:induction false} ReachedIsStrict(n: Node?, startDepth: int, o: Node)
    requires Linked(n) && Tree(n) && o in Reach(n, startDepth) && o in Spine(n)
    ensures o in Strict(n, startDepth)
    decreases Height(n)
  {
    hide Stops;
    SpineIsInWhole(n.right);
    SpineIsInWhole(n.bottom);
    ReachIsInWhole(n.expression, startDepth);
    ReachIsInWhole(n.secondaryExpression, startDepth);
    ReachIsInWhole(n.right, startDepth);
    ReachIsInWhole(n.bottom, startDepth);
    if o in Whole(n.right) { ReachedIsStrict(n.right, startDepth, o); }
    if o in Whole(n.bottom) { ReachedIsStrict(n.bottom, startDepth, o); }
  }

  lemma {:induction false} PartOfTree(n: Node?, m: Node)
    requires Linked(n) && Tree(n) && m in Spine(n)
    ensures Linked(m) && Tree(m) && Whole(m) <= Whole(n) && (Typed(n) ==> Typed(m))
    decreases Height(n)
  {
    if m in Spine(n.right) { PartOfTree(n.right, m); }
    if m in Spine(n.bottom) { PartOfTree(n.bottom, m); }
  }

  lemma {:induction false} SpineOfPart(n: Node?, m: Node, o: Node)
    requires Linked(n) && Tree(n) && m in Spine(n) && Linked(m) && o in Whole(m) && o in Spine(n)
    ensures o in Spine(m)
    decreases Height(n)
  {
    if m != n {
      SpineIsInWhole(n.right);
      SpineIsInWhole(n.bottom);
      if m in Spine(n.right) {
        PartOfTree(n.right, m);
        SpineOfPart(n.right, m, o);
      } else {
        PartOfTree(n.bottom, m);
        SpineOfPart(n.bottom, m, o);
      }
    }
  }

  // ----- comparing types and scopes -----

  lemma {:induction false} ChildrenInSpine(n: Node?, m: Node)
    requires Linked(n) && m in Spine(n)
    ensures m.right != null ==> m.right in Spine(n)
    ensures m.bottom != null ==> m.bottom in Spine(n)
    decreases Height(n)
  {
    if m in Spine(n.right) { ChildrenInSpine(n.right, m); }
    if m in Spine(n.bottom) { ChildrenInSpine(n.bottom, m); }
  }

  lemma {:induction false} VisitsInSpine(field: Node?, header: Node?, all: set<Node>, i: nat)
    requires Walkable(field, header) && Spine(field) <= all && Spine(header) <= all && i < |Visits(field, header)|
    ensures var v := Visits(field, header)[i]; v.field in all && (v.header != null ==> v.header in all)
    decreases if header == null then 2 * Height(field) else 2 * Height(header) - 1, Height(field)
  {
    if field.multifieldSlot && field.bottom == null {
      VisitsInSpine(field.right, field, all, i);
    } else {
      var (f, h) := if field.multifieldSlot then (field.bottom, field) else (field, header);
      assert Linked(f) && Spine(f) <= all;
      if i > 0 {
        if f.right == null && h != null {
          VisitsInSpine(h.right, null, all, i - 1);
        } else {
          VisitsInSpine(f.right, h, all, i - 1);
        }
      }
    }
  }

  lemma SpineReached(first: Node?, m: Node?, startDepth: int, o: Node)
    requires Linked(first) && Tree(first) && Linked(m) && (m != null ==> m in Spine(first))
    requires o in Reach(m, startDepth) && o in Spine(first)
    ensures o in Strict(m, startDepth)
  {
    hide Spine, Whole, Tree;
    PartOfTree(first, m);
    ReachIsInWhole(m, startDepth);
    SpineOfPart(first, m, o);
    ReachedIsStrict(m, startDepth, o);
  }

  lemma NotInExpressions(first: Node?, m: Node, o: Node)
    requires Linked(first) && Tree(first) && Linked(m) && m in Spine(first) && o in Spine(first)
    ensures o !in Whole(m.expression) && o !in Whole(m.secondaryExpression)
  {
    if o in Whole(m.expression) + Whole(m.secondaryExpression) {
      PartOfTree(first, m);
      SpineOfPart(first, m, o);
      SpineIsInWhole(m.right);
      SpineIsInWhole(m.bottom);
      assert false;
    }
  }

  lemma OwnNeverClashes(first: Node?, head: Node, field: Node, o: Node)
    requires Linked(first) && Tree(first) && Typed(first) && Linked(field) && field in Spine(first) && Binds(field)
    requires o in Spine(first) && o in OwnReach(head, field)
    ensures !Clashes(o, field.value, field.Multi(), false)
  {
    hide Spine, Whole, Tree, Reach, Strict, Clashes;
    ChildrenInSpine(first, field);
    SpineReached(first, field.bottom, head.beginNandDepth, o);
    PartOfTree(first, field);
    assert !Clash(Strict(field.bottom, head.beginNandDepth), field.value, field.multifield, false);
  }

  /** A node that a binding reaches and that has its name with another type makes the analysis fail. */
  lemma ReachedClashes(first: Node?, head: Node, visit: Visit, o: Node)
    requires Linked(first) && Tree(first) && Typed(first)
    requires Linked(head) && Linked(visit.field) && Linked(visit.header) && Binds(visit.field)
    requires head in Spine(first) && visit.field in Spine(first)
    requires visit.header != null ==> visit.header in Spine(first)
    requires o in Spine(first) && o in OwnReach(head, visit.field) + DriverReach(head, visit)
    requires Clashes(o, visit.field.value, visit.field.Multi(), false)
    ensures Mixes(head, visit)
  {
    hide Spine, Whole, Tree, Reach, Strict, Clashes;
    var depth := head.beginNandDepth;
    ChildrenInSpine(first, visit.field);
    ChildrenInSpine(first, head);
    NotInExpressions(first, head, o);
    ReachIsInWhole(head.expression, depth);
    ReachIsInWhole(head.secondaryExpression, depth);
    if o in OwnReach(head, visit.field) {
      OwnNeverClashes(first, head, visit.field, o);
    } else if visit.header != null && o in Reach(visit.header.right, depth) {
      ChildrenInSpine(first, visit.header);
      SpineReached(first, visit.header.right, depth, o);
    } else if o in Reach(visit.field.right, depth) {
      SpineReached(first, visit.field.right, depth, o);
    } else {
      SpineReached(first, head.bottom, depth, o);
    }
    assert o in Compared(head, visit);
  }

  // ----- where a node is -----

  ghost predicate NoSlots(n: Node?)
    requires Linked(n)
    decreases Height(n)
  {
    n == null || (!n.multifieldSlot && NoSlots(n.right) && NoSlots(n.bottom))
  }

  /** Multifield slots only stand at the top of a pattern, and are no variables. */
  ghost predicate Flat(field: Node?)
    requires Linked(field)
    decreases Height(field)
  {
    field == null ||
    (NoSlots(field.bottom) && Flat(field.right) && (field.multifieldSlot ==> field.kind == Other))
  }

  ghost predicate AllFlat(ce: Node?)
    requires Linked(ce)
    decreases Height(ce)
  {
    ce == null || (Flat(ce.right) && AllFlat(ce.bottom))
  }

  /** The walk over a pattern comes to every node but the slots themselves. */
  lemma {:induction false} TopIsVisited(field: Node?, header: Node?, o: Node) returns (i: nat)
    requires Walkable(field, header) && Flat(field) && o in Spine(field) && o.kind != Other
    ensures i < |Visits(field, header)| && o in Region(Visits(field, header)[i])
    decreases if header == null then 2 * Height(field) else 2 * Height(header) - 1, Height(field)
  {
    SpineIsInWhole(field.bottom);
    if field.multifieldSlot {
      if field.bottom == null {
        i := TopIsVisited(field.right, field, o);
      } else {
        i := GroupedIsVisited(field.bottom, field, o);
      }
    } else if o in Spine(field.right) {
      i := TopIsVisited(field.right, header, o);
      i := i + 1;
    } else {
      i := 0;
    }
  }

  lemma {:induction false} GroupedIsVisited(field: Node, header: Node, o: Node) returns (i: nat)
    requires Walkable(field, header) && NoSlots(field) && Flat(header.right)
    requires (o in Spine(field) || o in Spine(header.right)) && o.kind != Other
    ensures i < |Visits(field, header)| && o in Region(Visits(field, header)[i])
    decreases 2 * Height(header) - 1, Height(field)
  {
    SpineIsInWhole(field.bottom);
    if o == field || o in Spine(field.bottom) {
      i := 0;
    } else if field.right == null {
      i := TopIsVisited(header.right, null, o);
      i := i + 1;
    } else {
      i := GroupedIsVisited(field.right, header, o);
      i := i + 1;
    }
  }

  /** Every pattern and variable outside expressions has a place. */
  lemma {:induction false} PlaceOf(first: Node?, o: Node) returns (place: Place)
    requires Linked(first) && AllParsed(first) && AllFlat(first) && o in Spine(first) && o.kind != Other
    ensures At(o, first, place)
    decreases Height(first)
  {
    hide Visits, NoneBehind, Region, Tests;
    HeadFirst(first);
    if o == first {
      place := Place(0, 0);
    } else if o in Spine(first.right) {
      var i := TopIsVisited(first.right, null, o);
      place := Place(0, i + 1);
    } else {
      place := PlaceOf(first.bottom, o);
      assert CEs(first) == [first] + CEs(first.bottom);
      place := Place(place.ce + 1, place.field);
    }
  }

  lemma {:induction false} CEInSpine(first: Node?, i: nat)
    requires Linked(first) && i < |CEs(first)|
    ensures CEs(first)[i] in Spine(first) && Linked(CEs(first)[i])
    decreases i
  {
    if i > 0 { CEInSpine(first.bottom, i - 1); }
  }

  // ----- refused rules -----

  /** A name is used with another type in the scope of a binding, and not in an expression. */
  ghost predicate MixedAt(first: Node?, k: nat, o: Node, place: Place)
    requires Linked(first)
  {
    && At(o, first, place) && o in Spine(first) && Candidate(first, k, o, place)
    && var b := Binders(first, 0)[k].node;
      if o.kind == PatternCE then b.kind == Variable && b.multifield
      else o.multifield != (b.kind == Variable && b.multifield)
  }

  /** A rule, as the parser leaves it. */
  ghost predicate AsParsed(v: References, first: Node?)
    requires Linked(first)
  {
    Fresh(v, first) && Typed(first) && AllFlat(first)
  }

  lemma {:induction false} UnmixedAt(first: Node?, i: nat)
    requires Linked(first) && AllUnmixed(first) && i < |CEs(first)| && Linked(CEs(first)[i])
    ensures CEs(first)[i].kind == PatternCE ==> Unmixed(CEs(first)[i], Visits(CEs(first)[i], null))
    decreases i
  {
    if i > 0 { UnmixedAt(first.bottom, i - 1); }
  }

  /** The pattern and the visit of a binding. */
  lemma VisitOf(first: Node?, k: nat) returns (ce: Node, visit: Visit)
    requires Linked(first) && k < |Binders(first, 0)|
    ensures var b := Binders(first, 0)[k];
      && b.ce < |CEs(first)| && ce == CEs(first)[b.ce] && ce.kind == PatternCE && ce in Spine(first)
      && Linked(ce) && Linked(visit.field) && Linked(visit.header)
      && b.field < |Visits(ce, null)| && visit == Visits(ce, null)[b.field] && visit.field == b.node
      && Binds(b.node) && b.reach == OwnReach(ce, visit.field) + DriverReach(ce, visit)
      && visit.field in Spine(first) && (visit.header != null ==> visit.header in Spine(first))
  {
    hide Visits, OwnReach, DriverReach, Binders;
    var b := Binders(first, 0)[k];
    BindersAre(first, 0, k);
    ce := CEs(first)[b.ce];
    CEInSpine(first, b.ce);
    visit := Visits(ce, null)[b.field];
    SpineWithin(first, ce);
    VisitsInSpine(ce, null, Spine(first), b.field);
  }

  lemma {:induction false} SpineWithin(n: Node?, m: Node)
    requires Linked(n) && m in Spine(n) && Linked(m)
    ensures Spine(m) <= Spine(n)
    decreases Height(n)
  {
    if m in Spine(n.right) { SpineWithin(n.right, m); }
    if m in Spine(n.bottom) { SpineWithin(n.bottom, m); }
  }

  lemma MixedClashes(first: Node?, k: nat, o: Node, place: Place)
    requires Linked(first) && MixedAt(first, k, o, place)
    ensures var b := Binders(first, 0)[k].node; Clashes(o, b.value, b.Multi(), false)
  {
  }

  lemma MixingIsFound(v: References, first: Node?, k: nat, o: Node, place: Place)
    requires Linked(first) && AsParsed(v, first) && MixedAt(first, k, o, place)
    ensures !AllUnmixed(first)
  {
    hide Candidate, Tree, Binders, AllParsed, CEs, Sits, Spine, Mixes, OwnReach, DriverReach, Visits, Clashes;
    CandidateIsBinder(first, k, o, place);
    HitsAreCandidates(first, o, place, k);
    MixedClashes(first, k, o, place);
    var ce, visit := VisitOf(first, k);
    ReachedClashes(first, ce, visit, o);
    if AllUnmixed(first) {
      UnmixedAt(first, Binders(first, 0)[k].ce);
      assert false;
    }
  }

  lemma {:induction false} FindMixing(first: Node?) returns (i: nat, at: nat)
    requires Linked(first) && !AllUnmixed(first)
    ensures i < |CEs(first)| && Linked(CEs(first)[i]) && CEs(first)[i].kind == PatternCE
    ensures var visits := Visits(CEs(first)[i], null);
      at < |visits| && Binds(visits[at].field) && Mixes(CEs(first)[i], visits[at])
    decreases Height(first)
  {
    hide Visits, Mixes;
    if first.kind == PatternCE && !Unmixed(first, Visits(first, null)) {
      i := 0;
      at :| at < |Visits(first, null)| && Binds(Visits(first, null)[at].field) && Mixes(first, Visits(first, null)[at]);
    } else {
      i, at := FindMixing(first.bottom);
      i := i + 1;
    }
  }

  lemma ComparedIsReached(first: Node?, ce: Node, visit: Visit, o: Node)
    requires Linked(first) && Linked(ce) && Linked(visit.field) && Linked(visit.header) && o in Compared(ce, visit)
    requires ce in Spine(first) && visit.field in Spine(first)
    requires visit.header != null ==> visit.header in Spine(first)
    ensures o in DriverReach(ce, visit) && o in Spine(first)
  {
    hide Reach, Strict;
    StrictIsWithin(visit.field.right, ce.beginNandDepth);
    StrictIsWithin(ce.bottom, ce.beginNandDepth);
    SpineWithin(first, visit.field);
    SpineWithin(first, ce);
    if visit.header != null {
      StrictIsWithin(visit.header.right, ce.beginNandDepth);
      SpineWithin(first, visit.header);
    }
  }

  lemma MixingHasAPlace(v: References, first: Node?) returns (k: nat, o: Node, place: Place)
    requires Linked(first) && AsParsed(v, first) && !AllUnmixed(first)
    ensures MixedAt(first, k, o, place)
  {
    hide Candidate, Tree, Binders, AllParsed, CEs, Sits, Spine, Compared, OwnReach, DriverReach, Visits, AllUnmixed;
    var i, at := FindMixing(first);
    k := EveryBindingIsListed(first, 0, i, at);
    var ce, visit := VisitOf(first, k);
    o :| o in Compared(ce, visit) && Clashes(o, visit.field.value, visit.field.Multi(), false);
    ComparedIsReached(first, ce, visit, o);
    place := PlaceOf(first, o);
    HitsAreCandidates(first, o, place, k);
  }

  lemma {:induction false} VisitsMix(v: References, head: Node, visits: seq<Visit>)
    requires Linked(head) && Visitable(visits) && !Unmixed(head, visits)
    ensures Visited(v, head, visits).None?
    decreases |visits|
  {
    hide Mixes, Uses, OwnReach, DriverReach, UnboundIn, Entered, Left;
    var f := visits[0].field;
    if !Binds(f) || !Mixes(head, visits[0]) {
      assert !Unmixed(head, visits[1..]) by {
        var i :| 0 <= i < |visits| && Binds(visits[i].field) && Mixes(head, visits[i]);
        assert visits[i] == visits[1..][i - 1];
      }
      VisitsMix(Left(Entered(v, head, f), head, visits[0]), head, visits[1..]);
    }
  }

  lemma {:induction false} MixingIsRefused(v: References, first: Node?)
    requires Linked(first) && !AllUnmixed(first)
    ensures Analysed(v, first).None?
    decreases Height(first)
  {
    hide Visited, Visits, Unmixed;
    if first.kind == PatternCE && !Unmixed(first, Visits(first, null)) {
      VisitsMix(v, first, Visits(first, null));
    } else if Passed(v, first).Some? {
      MixingIsRefused(Passed(v, first).value, first.bottom);
    }
  }

  /** The three reasons to refuse a rule, where a use is what the analysis checks. */
  lemma RefusedForOneOf(v: References, first: Node?)
    requires Linked(first) && AsParsed(v, first)
    ensures Analysed(v, first).None? <==>
      || (exists place, use :: UnboundAt(first, place, use))
      || (exists i :: ReboundAt(first, i))
      || (exists k, o, place :: MixedAt(first, k, o, place))
  {
    hide Analysed, UnboundAt, ReboundAt, MixedAt, Linked, Fresh, Typed, AllFlat;
    if AllUnmixed(first) {
      if Analysed(v, first).None? { RefusedForAReason(v, first); }
    } else {
      MixingIsRefused(v, first);
      var k, o, place := MixingHasAPlace(v, first);
    }
    if place, use :| UnboundAt(first, place, use) { UnboundIsRefused(v, first, place, use); }
    if i :| ReboundAt(first, i) { ReboundIsRefused(v, first, i); }
    if k, o, place :| MixedAt(first, k, o, place) { MixingIsFound(v, first, k, o, place); }
  }
}
