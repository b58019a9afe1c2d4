/** The parse nodes of a rule's left-hand side, and how a variable is handed on along their
    links.  A node's links are fixed once it was made; only what it refers to changes. */
module LhsNode {
  import opened Wrappers

  type Name = string

  datatype Kind = PatternCE | TestCE | Variable | FunctionCall | Predicate | Other

  class Node {
    const kind: Kind
    const value: Option<Name>
    const multifield: bool
    const multifieldSlot: bool
    const negated: bool
    const existsCE: bool
    const beginNandDepth: int
    const endNandDepth: int
    const patternType: nat
    const pattern: int
    const expression: Node?
    const secondaryExpression: Node?
    const right: Node?
    const bottom: Node?
    ghost const height: nat
    var referringNode: Node?

    constructor (kind: Kind, value: Option<Name>, multifield: bool, multifieldSlot: bool, negated: bool,
                 existsCE: bool, beginNandDepth: int, endNandDepth: int, patternType: nat, pattern: int,
                 expression: Node?, secondaryExpression: Node?, right: Node?, bottom: Node?)
      requires Linked(expression) && Linked(secondaryExpression) && Linked(right) && Linked(bottom)
      ensures Linked(this) && referringNode == null
      ensures this.kind == kind && this.value == value
      ensures this.multifield == multifield && this.multifieldSlot == multifieldSlot
      ensures this.negated == negated && this.existsCE == existsCE
      ensures this.beginNandDepth == beginNandDepth && this.endNandDepth == endNandDepth
      ensures this.patternType == patternType && this.pattern == pattern
      ensures this.expression == expression && this.secondaryExpression == secondaryExpression
      ensures this.right == right && this.bottom == bottom
    {
      this.kind, this.value, this.multifield, this.multifieldSlot := kind, value, multifield, multifieldSlot;
      this.negated, this.existsCE := negated, existsCE;
      this.beginNandDepth, this.endNandDepth := beginNandDepth, endNandDepth;
      this.patternType, this.pattern := patternType, pattern;
      this.expression, this.secondaryExpression := expression, secondaryExpression;
      this.right, this.bottom := right, bottom;
      height := Height(expression) + Height(secondaryExpression) + Height(right) + Height(bottom);
      referringNode := null;
    }

    /** A pattern address counts as a single-field variable. */
    predicate Multi() { kind == Variable && multifield }

    predicate IsCE() { kind == PatternCE || kind == TestCE }

    /** Whether a binding of `name` concerns this node.  The else of the source: the name of a node
        with a secondary expression is not looked at. */
    predicate Named(name: Option<Name>) {
      secondaryExpression == null && (kind == Variable || kind == PatternCE) && value == name
    }
  }

  ghost function Height(n: Node?): nat {
    if n == null then 0 else n.height + 1
  }

  /** The links lead to ever lower nodes. */
  ghost predicate Linked(n: Node?)
    decreases Height(n)
  {
    n == null ||
    (&& Height(n.expression) < Height(n) && Linked(n.expression)
     && Height(n.secondaryExpression) < Height(n) && Linked(n.secondaryExpression)
     && Height(n.right) < Height(n) && Linked(n.right)
     && Height(n.bottom) < Height(n) && Linked(n.bottom))
  }

  /** The node that represents a whole CE lets nothing past it that began deeper than it ends. */
  predicate Stops(n: Node, startDepth: int) {
    n.IsCE() && n.endNandDepth < startDepth
  }

  /** The nodes that a propagation from `n` visits. */
  ghost function Reach(n: Node?, startDepth: int): set<Node>
    requires Linked(n)
    decreases Height(n)
  {
    if n == null then {}
    else
      {n} + Reach(n.expression, startDepth) + Reach(n.secondaryExpression, startDepth)
      + Reach(n.right, startDepth) + if Stops(n, startDepth) then {} else Reach(n.bottom, startDepth)
  }

  /** All nodes that hang on `n`. */
  ghost function Whole(n: Node?): set<Node>
    requires Linked(n)
    decreases Height(n)
  {
    if n == null then {}
    else {n} + Whole(n.expression) + Whole(n.secondaryExpression) + Whole(n.right) + Whole(n.bottom)
  }

  lemma {:induction false} ReachIsInWhole(n: Node?, startDepth: int)
    requires Linked(n)
    ensures Reach(n, startDepth) <= Whole(n)
    decreases Height(n)
  {
    if n != null {
      ReachIsInWhole(n.expression, startDepth);
      ReachIsInWhole(n.secondaryExpression, startDepth);
      ReachIsInWhole(n.right, startDepth);
      ReachIsInWhole(n.bottom, startDepth);
    }
  }

  // ----- what nodes refer to -----

  type References = map<Node, Node?>

  ghost function View(all: set<Node>): References
    reads all
  {
    map n | n in all :: n.referringNode
  }

  /** What `n` refers to once the binding `b` of its name has reached it. */
  function Taken(n: Node, current: Node?, b: Node): Node? {
    if n.kind == PatternCE || current == null || b.pattern == n.pattern || b.patternType == n.patternType
    then b else current
  }

  ghost function Wrote(v: References, reach: set<Node>, name: Option<Name>, b: Node): References {
    map n | n in v :: if n in reach && n.Named(name) then Taken(n, v[n], b) else v[n]
  }

  lemma WroteTwice(v: References, first: set<Node>, second: set<Node>, name: Option<Name>, b: Node)
    ensures Wrote(Wrote(v, first, name, b), second, name, b) == Wrote(v, first + second, name, b)
  {
  }

  lemma WroteNothing(v: References, name: Option<Name>, b: Node)
    ensures Wrote(v, {}, name, b) == v
  {
  }

  // ----- mixing single-field and multifield variables -----

  /** The nodes of a propagation on which the types of the variables are compared: none in expressions. */
  ghost function Strict(n: Node?, startDepth: int): set<Node>
    requires Linked(n)
    decreases Height(n)
  {
    if n == null then {}
    else {n} + Strict(n.right, startDepth) + if Stops(n, startDepth) then {} else Strict(n.bottom, startDepth)
  }

  /** Whether a binding of a type can be handed to a node. */
  predicate Clashes(n: Node, name: Option<Name>, multi: bool, ignoring: bool) {
    n.Named(name) && if n.kind == PatternCE then multi else !ignoring && n.multifield != multi
  }

  ghost predicate Clash(nodes: set<Node>, name: Option<Name>, multi: bool, ignoring: bool) {
    exists n :: n in nodes && Clashes(n, name, multi, ignoring)
  }

  ghost predicate NoPatterns(n: Node?)
    requires Linked(n)
    decreases Height(n)
  {
    n == null ||
    (&& n.kind != PatternCE && NoPatterns(n.expression) && NoPatterns(n.secondaryExpression)
     && NoPatterns(n.right) && NoPatterns(n.bottom))
  }

  /** As the parser leaves it: no expression holds a pattern, and below a variable its name has its type. */
  ghost predicate Typed(n: Node?)
    requires Linked(n)
    decreases Height(n)
  {
    n == null ||
    (&& NoPatterns(n.expression) && NoPatterns(n.secondaryExpression)
     && (n.kind == Variable ==> forall d :: !Clash(Strict(n.bottom, d), n.value, n.multifield, false))
     && Typed(n.expression) && Typed(n.secondaryExpression) && Typed(n.right) && Typed(n.bottom))
  }

  lemma {:induction false} ExpressionsNeverClash(n: Node?, startDepth: int, name: Option<Name>, multi: bool)
    requires Linked(n) && NoPatterns(n)
    ensures !Clash(Strict(n, startDepth), name, multi, true)
    decreases Height(n)
  {
    if n != null {
      ExpressionsNeverClash(n.right, startDepth, name, multi);
      ExpressionsNeverClash(n.bottom, startDepth, name, multi);
      ClashOfParts(Strict(n.right, startDepth), Strict(n.bottom, startDepth), name, multi, true);
    }
  }

  lemma ClashOfParts(a: set<Node>, b: set<Node>, name: Option<Name>, multi: bool, ignoring: bool)
    ensures Clash(a + b, name, multi, ignoring) <==> Clash(a, name, multi, ignoring) || Clash(b, name, multi, ignoring)
  {
    if Clash(a, name, multi, ignoring) {
      var n :| n in a && Clashes(n, name, multi, ignoring);
      assert n in a + b;
    }
    if Clash(b, name, multi, ignoring) {
      var n :| n in b && Clashes(n, name, multi, ignoring);
      assert n in a + b;
    }
  }

  lemma ClashOfOne(n: Node, name: Option<Name>, multi: bool, ignoring: bool)
    ensures Clash({n}, name, multi, ignoring) <==> Clashes(n, name, multi, ignoring)
  {
    assert n in {n};
  }

  // ----- handing a binding on -----

  method Refer(node: Node, name: Option<Name>, reference: Node, multi: bool, ignoring: bool, ghost all: set<Node>)
    returns (mixed: bool)
    requires node in all && node.secondaryExpression == null
    modifies node
    ensures mixed <==> Clashes(node, name, multi, ignoring)
    ensures !mixed ==> View(all) == Wrote(old(View(all)), {node}, name, reference)
  {
    mixed := false;
    if node.kind == Variable && node.value == name {
      if !ignoring && multi != node.multifield { return true; }
      if node.referringNode == null { node.referringNode := reference; }
      else if reference.pattern == node.pattern { node.referringNode := reference; }
      else if reference.patternType == node.patternType { node.referringNode := reference; }
    } else if node.kind == PatternCE && node.value == name {
      if multi { return true; }
      node.referringNode := reference;
    }
  }

  /** A node without what follows it below. */
  ghost function Here(n: Node, startDepth: int): set<Node>
    requires Linked(n)
  {
    Reach(n.expression, startDepth) + Reach(n.secondaryExpression, startDepth) + {n} + Reach(n.right, startDepth)
  }

  /** The binding is handed to every node in reach, unless one has the name with another type. */
  method PropagateVariableToNodes(theNode: Node?, name: Option<Name>, reference: Node, multi: bool, startDepth: int,
                                  ignoring: bool, ghost all: set<Node>) returns (mixed: bool)
    requires Linked(theNode) && Typed(theNode) && Reach(theNode, startDepth) <= all
    modifies all
    ensures mixed <==> Clash(Strict(theNode, startDepth), name, multi, ignoring)
    ensures !mixed ==> View(all) == Wrote(old(View(all)), Reach(theNode, startDepth), name, reference)
    decreases Height(theNode), 1
  {
    hide View, Wrote, Clash;
    mixed := false;
    var node := theNode;
    ghost var start, done, compared := View(all), {}, {};
    WroteNothing(start, name, reference);
    NoClash(name, multi, ignoring);
    while node != null
      invariant Linked(node) && Typed(node) && Height(node) <= Height(theNode)
      invariant done + Reach(node, startDepth) == Reach(theNode, startDepth)
      invariant compared + Strict(node, startDepth) == Strict(theNode, startDepth)
      invariant View(all) == Wrote(start, done, name, reference) && !Clash(compared, name, multi, ignoring)
      decreases Height(node)
    {
      ghost var compare := {node} + Strict(node.right, startDepth);
      ghost var below := if Stops(node, startDepth) then {} else Strict(node.bottom, startDepth);
      ClashOfParts(compared, compare, name, multi, ignoring);
      ClashOfParts(compared + compare, below, name, multi, ignoring);
      assert Strict(theNode, startDepth) == compared + compare + below;
      mixed := PropagateVariableHere(node, name, reference, multi, startDepth, ignoring, all);
      if mixed { return; }
      WroteTwice(start, done, Here(node, startDepth), name, reference);
      done, compared := done + Here(node, startDepth), compared + compare;
      node := if node.IsCE() && node.endNandDepth < startDepth then null else node.bottom;
    }
  }

  lemma NoClash(name: Option<Name>, multi: bool, ignoring: bool)
    ensures !Clash({}, name, multi, ignoring)
  {
  }

  /** One round of the loop: the node's expressions, the node itself and what is right of it.  What the
      expressions answer is not looked at. */
  method PropagateVariableHere(node: Node, name: Option<Name>, reference: Node, multi: bool, startDepth: int,
                               ignoring: bool, ghost all: set<Node>) returns (mixed: bool)
    requires Linked(node) && Typed(node) && Reach(node, startDepth) <= all
    modifies all
    ensures mixed <==> Clash({node} + Strict(node.right, startDepth), name, multi, ignoring)
    ensures !mixed ==> View(all) == Wrote(old(View(all)), Here(node, startDepth), name, reference)
    decreases Height(node), 0
  {
    hide View, Wrote, Stops, Clash;
    ghost var start := View(all);
    ExpressionsNeverClash(node.expression, startDepth, name, multi);
    ExpressionsNeverClash(node.secondaryExpression, startDepth, name, multi);
    ClashOfParts({node}, Strict(node.right, startDepth), name, multi, ignoring);
    ClashOfOne(node, name, multi, ignoring);
    var unused := PropagateVariableToNodes(node.expression, name, reference, multi, startDepth, true, all);
    ghost var done := Reach(node.expression, startDepth);
    unused := PropagateVariableToNodes(node.secondaryExpression, name, reference, multi, startDepth, true, all);
    WroteTwice(start, done, Reach(node.secondaryExpression, startDepth), name, reference);
    done := done + Reach(node.secondaryExpression, startDepth);
    if node.secondaryExpression == null {
      mixed := Refer(node, name, reference, multi, ignoring, all);
      if mixed { return; }
    } else {
      NotNamed(View(all), node, name, reference);
    }
    WroteTwice(start, done, {node}, name, reference);
    mixed := PropagateVariableToNodes(node.right, name, reference, multi, startDepth, ignoring, all);
    if mixed { return; }
    WroteTwice(start, done + {node}, Reach(node.right, startDepth), name, reference);
  }

  lemma NotNamed(v: References, n: Node, name: Option<Name>, b: Node)
    requires n.secondaryExpression != null
    ensures Wrote(v, {n}, name, b) == v
  {
  }
}
