/** Bounded faces: a stack walk over an expression and a recursive projection of a
    result value must enforce one and the same limit. */
module Faces {
  import opened Syntax

  datatype Budget = Budget(maxDepth: nat, maxItems: nat, maxBytes: nat)

  datatype Dimension = DepthLimit | ItemLimit | ByteLimit

  datatype Issue = Truncated(dimension: Dimension, limit: nat, observed: nat) | Unsupported

  function SymbolBytes(s: Symbol): nat {
    (match s.space case None => 0 case Some(ns) => |ns| + 1) + |s.name|
  }

  function AnnotationParts(annotations: seq<Annotation>): (parts: seq<Expr>)
    ensures forall i :: 0 <= i < |parts| ==> (annotations decreases to parts[i])
    ensures |parts| == |annotations|
  {
    if annotations == [] then []
    else
      assert annotations decreases to annotations[0];
      [annotations[0].value] + AnnotationParts(annotations[1..])
  }

  /** The children in the order the walk meets them. */
  function Children(e: Expr): (children: seq<Expr>)
    ensures forall i {:trigger children[i]} :: 0 <= i < |children| ==> (e decreases to children[i])
  {
    match e
    case List(items) => items
    case Vector(items) => items
    case Set(items) => items
    case Block(items) => items
    case Map(entries) => EntryParts(entries)
    case Call(operator, args) => [operator] + args
    case Infix(_, left, right) => [left, right]
    case Prefix(_, arg) => [arg]
    case Postfix(_, arg) => [arg]
    case Quote(quoted) => [quoted]
    case Annotated(inner, annotations) => AnnotationParts(annotations) + [inner]
    case Extension(_, payload) => [payload]
    case _ => []
  }

  /** The scalar bytes charged for a node itself, charge by charge. */
  function Charges(e: Expr): seq<nat> {
    match e
    case Str(text) => [|text|]
    case Bytes(bytes) => [|bytes|]
    case Number(domain, canonical) => [SymbolBytes(domain), |canonical|]
    case Sym(symbol) => [SymbolBytes(symbol)]
    case Local(symbol) => [SymbolBytes(symbol)]
    case Infix(op, _, _) => [SymbolBytes(op)]
    case Prefix(op, _) => [SymbolBytes(op)]
    case Postfix(op, _) => [SymbolBytes(op)]
    case Annotated(_, annotations) => seq(|annotations|, i requires 0 <= i < |annotations| => SymbolBytes(annotations[i].name))
    case Extension(tag, _) => [SymbolBytes(tag)]
    case _ => []
  }

  function Sum(ns: seq<nat>): nat {
    if ns == [] then 0 else ns[0] + Sum(ns[1..])
  }

  function Max(a: nat, b: nat): nat {
    if a <= b then b else a
  }

  // ---- What an expression costs, by recursion ----

  /** Node count, recursive depth and scalar bytes. */
  datatype Cost = Cost(nodes: nat, height: nat, weight: nat)

  const NOTHING := Cost(0, 0, 0)

  /** A row of trees with one more tree. */
  function Beside(row: Cost, tree: Cost): Cost {
    Cost(row.nodes + tree.nodes, Max(row.height, tree.height + 1), row.weight + tree.weight)
  }

  /** A node above a row of trees. */
  function Above(own: nat, row: Cost): Cost {
    Cost(1 + row.nodes, row.height, own + row.weight)
  }

  function Measure(e: Expr): Cost
    decreases e, |Children(e)| + 1
  {
    Above(Sum(Charges(e)), RowOf(e, |Children(e)|))
  }

  function RowOf(e: Expr, n: nat): Cost
    requires n <= |Children(e)|
    decreases e, n
  {
    if n == 0 then NOTHING else Beside(RowOf(e, n - 1), Measure(Children(e)[n - 1]))
  }

  /** The cost of any row of expressions. */
  function Row(es: seq<Expr>): Cost {
    if es == [] then NOTHING else Beside(Row(es[..|es| - 1]), Measure(es[|es| - 1]))
  }

  lemma {:induction false} RowOfChildren(e: Expr, n: nat)
    requires n <= |Children(e)|
    ensures RowOf(e, n) == Row(Children(e)[..n])
  {
    hide Children;
    if n > 0 {
      RowOfChildren(e, n - 1);
      assert Children(e)[..n][..n - 1] == Children(e)[..n - 1];
    }
  }

  lemma MeasureIs(e: Expr)
    ensures Measure(e) == Above(Sum(Charges(e)), Row(Children(e)))
  {
    RowOfChildren(e, |Children(e)|);
    assert Children(e)[..|Children(e)|] == Children(e);
  }

  /** A cost still fits what has been used at this depth. */
  predicate Admits(budget: Budget, items: nat, bytes: nat, depth: nat, cost: Cost) {
    depth + cost.height <= budget.maxDepth && items + cost.nodes <= budget.maxItems && bytes + cost.weight <= budget.maxBytes
  }

  /** A row with one more tree fits exactly if the row does and the tree fits what
      the row leaves, one level down. */
  lemma AdmitsBeside(budget: Budget, items: nat, bytes: nat, depth: nat, row: Cost, tree: Cost)
    ensures Admits(budget, items, bytes, depth, Beside(row, tree))
            <==> Admits(budget, items, bytes, depth, row) && Admits(budget, items + row.nodes, bytes + row.weight, depth + 1, tree)
    ensures Admits(budget, items, bytes, depth, row) ==> items + row.nodes <= budget.maxItems && bytes + row.weight <= budget.maxBytes
  {
  }

  // ---- What the walk meets ----

  datatype Visit = Visit(expr: Expr, depth: nat)

  function Preorder(e: Expr, depth: nat): seq<Visit>
    decreases e, |Children(e)| + 1
  {
    [Visit(e, depth)] + PreorderOf(e, |Children(e)|, depth + 1)
  }

  function PreorderOf(e: Expr, n: nat, depth: nat): seq<Visit>
    requires n <= |Children(e)|
    decreases e, n
  {
    if n == 0 then [] else PreorderOf(e, n - 1, depth) + Preorder(Children(e)[n - 1], depth)
  }

  /** What a stack still holds, top first. */
  function Pending(stack: seq<Visit>): seq<Visit> {
    if stack == [] then []
    else Preorder(stack[|stack| - 1].expr, stack[|stack| - 1].depth) + Pending(stack[..|stack| - 1])
  }

  /** push_expr_children: the children in reverse, so that the first is on top. */
  function Pushed(children: seq<Expr>, depth: nat): seq<Visit> {
    seq(|children|, i requires 0 <= i < |children| => Visit(children[|children| - 1 - i], depth))
  }

  /** The last child goes in first, right above what is on the stack. */
  lemma PushedLast(stack: seq<Visit>, es: seq<Expr>, depth: nat)
    requires es != []
    ensures stack + Pushed(es, depth) == stack + [Visit(es[|es| - 1], depth)] + Pushed(es[..|es| - 1], depth)
  {
    assert Pushed(es, depth) == [Visit(es[|es| - 1], depth)] + Pushed(es[..|es| - 1], depth);
    hide Pushed;
  }

  /** A child on top of the stack comes before what the stack holds. */
  lemma PendingTop(before: seq<Visit>, stack: seq<Visit>, top: Visit)
    ensures before + Pending(stack + [top]) == before + Preorder(top.expr, top.depth) + Pending(stack)
  {
    assert (stack + [top])[..|stack|] == stack;
    assert Pending(stack + [top]) == Preorder(top.expr, top.depth) + Pending(stack);
    hide *;
    Regroup(before, Preorder(top.expr, top.depth), Pending(stack));
  }

  lemma Regroup<T>(a: seq<T>, b: seq<T>, c: seq<T>)
    ensures a + (b + c) == a + b + c
  {
  }

  lemma {:induction false} PushedPending(stack: seq<Visit>, e: Expr, n: nat, depth: nat)
    requires n <= |Children(e)|
    ensures Pending(stack + Pushed(Children(e)[..n], depth)) == PreorderOf(e, n, depth) + Pending(stack)
    decreases n
  {
    hide Children, Preorder, Pending;
    var some := Children(e)[..n];
    if n == 0 {
      assert stack + Pushed(some, depth) == stack;
    } else {
      hide Pushed;
      var last := Visit(Children(e)[n - 1], depth);
      assert some[..n - 1] == Children(e)[..n - 1];
      PushedLast(stack, some, depth);
      PushedPending(stack + [last], e, n - 1, depth);
      PendingTop(PreorderOf(e, n - 1, depth), stack, last);
    }
  }

  function Charge(bytes: nat, charges: seq<nat>, budget: Budget): Result<nat, Issue>
    decreases |charges|
  {
    if charges == [] then Ok(bytes)
    else if bytes + charges[0] > budget.maxBytes then Err(Truncated(ByteLimit, budget.maxBytes, bytes + charges[0]))
    else Charge(bytes + charges[0], charges[1..], budget)
  }

  /** Walking visits in order: the first limit that breaks is the one reported. */
  function Scan(visits: seq<Visit>, items: nat, bytes: nat, budget: Budget): Result<(nat, nat), Issue>
    decreases |visits|
  {
    if visits == [] then Ok((items, bytes))
    else
      var v := visits[0];
      if v.depth > budget.maxDepth then Err(Truncated(DepthLimit, budget.maxDepth, v.depth))
      else if items + 1 > budget.maxItems then Err(Truncated(ItemLimit, budget.maxItems, items + 1))
      else
        match Charge(bytes, Charges(v.expr), budget)
        case Err(issue) => Err(issue)
        case Ok(charged) => Scan(visits[1..], items + 1, charged, budget)
  }

  lemma {:induction false} ChargeOk(bytes: nat, charges: seq<nat>, budget: Budget)
    requires bytes <= budget.maxBytes
    ensures Charge(bytes, charges, budget).Ok? <==> bytes + Sum(charges) <= budget.maxBytes
    ensures Charge(bytes, charges, budget).Ok? ==> Charge(bytes, charges, budget).value == bytes + Sum(charges)
    decreases |charges|
  {
    if charges != [] && bytes + charges[0] <= budget.maxBytes {
      ChargeOk(bytes + charges[0], charges[1..], budget);
    }
  }

  /** Walking two stretches is walking one after the other. */
  lemma {:induction false} ScanConcat(a: seq<Visit>, b: seq<Visit>, items: nat, bytes: nat, budget: Budget)
    ensures Scan(a + b, items, bytes, budget)
            == match Scan(a, items, bytes, budget)
               case Err(issue) => Err(issue)
               case Ok((i, t)) => Scan(b, i, t, budget)
    decreases |a|
  {
    if a == [] {
      assert a + b == b;
    } else {
      assert (a + b)[0] == a[0] && (a + b)[1..] == a[1..] + b;
      var charged := Charge(bytes, Charges(a[0].expr), budget);
      if charged.Ok? {
        ScanConcat(a[1..], b, items + 1, charged.value, budget);
      }
    }
  }

  /** The walk over one expression succeeds exactly when its recursive depth, node
      count and scalar bytes fit what is left. */
  lemma {:induction false} ScanMeasures(e: Expr, depth: nat, items: nat, bytes: nat, budget: Budget)
    requires items <= budget.maxItems && bytes <= budget.maxBytes
    ensures var r := Scan(Preorder(e, depth), items, bytes, budget);
            && (r.Ok? <==> Admits(budget, items, bytes, depth, Measure(e)))
            && (r.Ok? ==> r.value == (items + Measure(e).nodes, bytes + Measure(e).weight))
    decreases e, |Children(e)| + 1
  {
    hide Children, Charges;
    var children := |Children(e)|;
    var rest := PreorderOf(e, children, depth + 1);
    assert Preorder(e, depth)[1..] == rest;
    hide RowOf, PreorderOf;
    ChargeOk(bytes, Charges(e), budget);
    if depth <= budget.maxDepth && items + 1 <= budget.maxItems && bytes + Sum(Charges(e)) <= budget.maxBytes {
      ScanRow(e, children, depth, items + 1, bytes + Sum(Charges(e)), budget);
    }
  }

  lemma {:induction false} ScanRow(e: Expr, n: nat, depth: nat, items: nat, bytes: nat, budget: Budget)
    requires n <= |Children(e)| && depth <= budget.maxDepth && items <= budget.maxItems && bytes <= budget.maxBytes
    ensures var r := Scan(PreorderOf(e, n, depth + 1), items, bytes, budget);
            && (r.Ok? <==> Admits(budget, items, bytes, depth, RowOf(e, n)))
            && (r.Ok? ==> r.value == (items + RowOf(e, n).nodes, bytes + RowOf(e, n).weight))
    decreases e, n
  {
    hide Children, Charges;
    if n > 0 {
      var child, row := Children(e)[n - 1], RowOf(e, n - 1);
      assert PreorderOf(e, n, depth + 1) == PreorderOf(e, n - 1, depth + 1) + Preorder(child, depth + 1);
      assert RowOf(e, n) == Beside(row, Measure(child));
      ScanRow(e, n - 1, depth, items, bytes, budget);
      AdmitsBeside(budget, items, bytes, depth, row, Measure(child));
      hide Scan, Preorder, PreorderOf, RowOf, Measure, Children, Max;
      ScanConcat(PreorderOf(e, n - 1, depth + 1), Preorder(child, depth + 1), items, bytes, budget);
      hide Admits;
      if Admits(budget, items, bytes, depth, row) {
        ScanMeasures(child, depth + 1, items + row.nodes, bytes + row.weight, budget);
      }
    }
  }

  // ---- The stack walk ----

  /** The answer of the walk in order over one expression. */
  ghost function InOrder(e: Expr, depth: nat, items: nat, bytes: nat, budget: Budget): Result<(nat, nat), Issue> {
    Scan(Preorder(e, depth), items, bytes, budget)
  }

  lemma InOrderMeasures(e: Expr, depth: nat, items: nat, bytes: nat, budget: Budget)
    requires items <= budget.maxItems && bytes <= budget.maxBytes
    ensures var r := InOrder(e, depth, items, bytes, budget);
            && (r.Ok? <==> Admits(budget, items, bytes, depth, Measure(e)))
            && (r.Ok? ==> r.value == (items + Measure(e).nodes, bytes + Measure(e).weight))
  {
    ScanMeasures(e, depth, items, bytes, budget);
  }

  /** What is still on the stack leads to the wanted answer. */
  ghost predicate Walking(wanted: Result<(nat, nat), Issue>, stack: seq<Visit>, items: nat, bytes: nat, budget: Budget) {
    Scan(Pending(stack), items, bytes, budget) == wanted
  }

  lemma WalkStarts(expr: Expr, budget: Budget)
    ensures Walking(InOrder(expr, 0, 0, 0, budget), [Visit(expr, 0)], 0, 0, budget)
  {
    hide Scan, Preorder;
    var stack := [Visit(expr, 0)];
    assert stack[..0] == [];
    assert Pending(stack) == Preorder(expr, 0) + [] == Preorder(expr, 0);
  }

  lemma WalkEnds(wanted: Result<(nat, nat), Issue>, items: nat, bytes: nat, budget: Budget)
    requires Walking(wanted, [], items, bytes, budget)
    ensures wanted == Ok((items, bytes))
  {
  }

  /** One turn: the top meets a limit, which is the answer, or its children take its
      place. */
  lemma WalkTurn(wanted: Result<(nat, nat), Issue>, rest: seq<Visit>, top: Visit, items: nat, bytes: nat, budget: Budget)
    requires Walking(wanted, rest + [top], items, bytes, budget)
    ensures var next := rest + Pushed(Children(top.expr), top.depth + 1);
            && |Pending(next)| < |Pending(rest + [top])|
            && if top.depth > budget.maxDepth then wanted == Err(Truncated(DepthLimit, budget.maxDepth, top.depth))
               else if items + 1 > budget.maxItems then wanted == Err(Truncated(ItemLimit, budget.maxItems, items + 1))
               else match Charge(bytes, Charges(top.expr), budget)
                    case Err(issue) => wanted == Err(issue)
                    case Ok(charged) => Walking(wanted, next, items + 1, charged, budget)
  {
    PendingStep(rest, top);
    hide Pushed, Pending, Preorder, Children, Charges, Charge;
    ScanTop(top, Pending(rest + Pushed(Children(top.expr), top.depth + 1)), items, bytes, budget);
    hide Scan;
  }

  /** inspect_expr: the same answer, limit and observation as the walk in order. */
  method InspectExpr(expr: Expr, budget: Budget) returns (r: Result<(), Issue>)
    ensures r == match InOrder(expr, 0, 0, 0, budget) case Ok(_) => Ok(()) case Err(issue) => Err(issue)
    ensures r.Ok? <==> Admits(budget, 0, 0, 0, Measure(expr))
  {
    hide *;
    InOrderMeasures(expr, 0, 0, 0, budget);
    WalkStarts(expr, budget);
    ghost var wanted := InOrder(expr, 0, 0, 0, budget);
    var stack := [Visit(expr, 0)];
    var items, bytes := 0, 0;
    while stack != []
      invariant Walking(wanted, stack, items, bytes, budget)
      decreases |Pending(stack)|
    {
      var top := stack[|stack| - 1];
      assert stack == stack[..|stack| - 1] + [top];
      stack := stack[..|stack| - 1];
      WalkTurn(wanted, stack, top, items, bytes, budget);
      if top.depth > budget.maxDepth {
        return Err(Truncated(DepthLimit, budget.maxDepth, top.depth));
      }
      items := items + 1;
      if items > budget.maxItems {
        return Err(Truncated(ItemLimit, budget.maxItems, items));
      }
      var charged := Charge(bytes, Charges(top.expr), budget);
      if charged.Err? {
        return Err(charged.error);
      }
      bytes := charged.value;
      stack := stack + Pushed(Children(top.expr), top.depth + 1);
    }
    WalkEnds(wanted, items, bytes, budget);
    return Ok(());
  }

  lemma ScanTop(top: Visit, rest: seq<Visit>, items: nat, bytes: nat, budget: Budget)
    ensures Scan([top] + rest, items, bytes, budget)
            == if top.depth > budget.maxDepth then Err(Truncated(DepthLimit, budget.maxDepth, top.depth))
               else if items + 1 > budget.maxItems then Err(Truncated(ItemLimit, budget.maxItems, items + 1))
               else match Charge(bytes, Charges(top.expr), budget)
                    case Err(issue) => Err(issue)
                    case Ok(charged) => Scan(rest, items + 1, charged, budget)
  {
    assert ([top] + rest)[1..] == rest;
  }

  /** What popping the top and pushing its children leaves to walk. */
  lemma PendingStep(rest: seq<Visit>, top: Visit)
    ensures var next := rest + Pushed(Children(top.expr), top.depth + 1);
            Pending(rest + [top]) == [top] + Pending(next)
  {
    hide Children;
    var children := Children(top.expr);
    assert children[..|children|] == children;
    PushedPending(rest, top.expr, |children|, top.depth + 1);
    assert (rest + [top])[..|rest|] == rest;
  }

  /** The root entered beforehand: its scalars meet the limit or its children wait. */
  lemma RootTurn(e: Expr, depth: nat, items: nat, bytes: nat, budget: Budget)
    requires depth <= budget.maxDepth && 1 <= items <= budget.maxItems
    ensures var wanted := InOrder(e, depth, items - 1, bytes, budget);
            match Charge(bytes, Charges(e), budget)
            case Err(issue) => wanted == Err(issue)
            case Ok(charged) => Walking(wanted, Pushed(Children(e), depth + 1), items, charged, budget)
  {
    RootStep(e, depth);
    hide Pushed, Pending, Preorder, Children, Charges, Charge;
    ScanTop(Visit(e, depth), Pending(Pushed(Children(e), depth + 1)), items - 1, bytes, budget);
    hide Scan;
  }

  // ---- Projecting a result value ----

  /** A result value as the projection sees it: rows of a table come in order. */
  datatype Value =
    | Callable
    | ListValue(items: seq<Value>)
    | TableValue(rows: seq<TableRow>)
    | Snapshot(expr: Expr)
    | Unreadable

  datatype TableRow = TableRow(key: Symbol, value: Value)

  /** No part is callable or without a snapshot. */
  predicate Projectable(v: Value) {
    match v
    case Callable => false
    case Unreadable => false
    case Snapshot(_) => true
    case ListValue(items) => forall i :: 0 <= i < |items| ==> Projectable(items[i])
    case TableValue(rows) => forall i :: 0 <= i < |rows| ==> RowProjectable(rows[i])
  }

  predicate RowProjectable(row: TableRow) {
    Projectable(row.value)
  }

  /** The data a projectable value stands for. */
  function Projection(v: Value): Expr
    requires Projectable(v)
  {
    match v
    case Snapshot(expr) => expr
    case ListValue(items) => List(seq(|items|, i requires 0 <= i < |items| => Projection(items[i])))
    case TableValue(rows) => Map(seq(|rows|, i requires 0 <= i < |rows| => RowProjection(rows[i])))
  }

  function RowProjection(row: TableRow): Entry
    requires RowProjectable(row)
  {
    Entry(Sym(row.key), Projection(row.value))
  }

  function Projections(items: seq<Value>): (es: seq<Expr>)
    requires forall i :: 0 <= i < |items| ==> Projectable(items[i])
    ensures |es| == |items|
  {
    seq(|items|, i requires 0 <= i < |items| => Projection(items[i]))
  }

  function RowProjections(rows: seq<TableRow>): (entries: seq<Entry>)
    requires forall i :: 0 <= i < |rows| ==> RowProjectable(rows[i])
    ensures |entries| == |rows|
  {
    seq(|rows|, i requires 0 <= i < |rows| => RowProjection(rows[i]))
  }

  // ---- Costs of rows ----

  lemma RowPlus(es: seq<Expr>, e: Expr)
    ensures Row(es + [e]) == Beside(Row(es), Measure(e))
  {
    assert (es + [e])[..|es|] == es;
  }

  /** Every tree in a row costs at least one node. */
  lemma {:induction false} RowCount(es: seq<Expr>)
    ensures Row(es).nodes >= |es|
  {
    if es != [] {
      RowCount(es[..|es| - 1]);
    }
  }

  /** A longer row costs no less. */
  lemma {:induction false} RowGrows(es: seq<Expr>, n: nat, budget: Budget, items: nat, bytes: nat, depth: nat)
    requires n <= |es| && Admits(budget, items, bytes, depth, Row(es))
    ensures Admits(budget, items, bytes, depth, Row(es[..n]))
    decreases |es|
  {
    if n == |es| {
      assert es[..n] == es;
    } else {
      assert es == es[..|es| - 1] + [es[|es| - 1]];
      RowPlus(es[..|es| - 1], es[|es| - 1]);
      AdmitsBeside(budget, items, bytes, depth, Row(es[..|es| - 1]), Measure(es[|es| - 1]));
      RowGrows(es[..|es| - 1], n, budget, items, bytes, depth);
      assert es[..|es| - 1][..n] == es[..n];
    }
  }

  lemma {:induction false} EntryPartsConcat(a: seq<Entry>, b: seq<Entry>)
    ensures EntryParts(a + b) == EntryParts(a) + EntryParts(b)
  {
    if a == [] {
      assert a + b == b;
    } else {
      assert (a + b)[0] == a[0] && (a + b)[1..] == a[1..] + b;
      EntryPartsConcat(a[1..], b);
    }
  }

  lemma EntryPartsPlus(entries: seq<Entry>, entry: Entry)
    ensures EntryParts(entries + [entry]) == EntryParts(entries) + [entry.key] + [entry.value]
  {
    EntryPartsConcat(entries, [entry]);
    assert [entry][1..] == [];
    assert EntryParts([entry]) == [entry.key, entry.value];
  }

  lemma KeyCost(key: Symbol)
    ensures Measure(Sym(key)) == Cost(1, 0, SymbolBytes(key))
  {
    MeasureIs(Sym(key));
    assert Sum([SymbolBytes(key)]) == SymbolBytes(key);
    assert Row([]) == NOTHING;
  }

  // ---- The tracker ----

  class FaceTracker {
    const budget: Budget
    var items: nat
    var bytes: nat

    ghost predicate Within()
      reads this
    {
      items <= budget.maxItems && bytes <= budget.maxBytes
    }

    constructor (budget: Budget)
      ensures this.budget == budget && items == 0 && bytes == 0 && Within()
    {
      this.budget := budget;
      items, bytes := 0, 0;
    }

    function RemainingItems(): nat
      reads this
    {
      if items <= budget.maxItems then budget.maxItems - items else 0
    }

    method Enter(depth: nat) returns (r: Result<(), Issue>)
      requires Within()
      modifies this`items
      ensures r.Ok? <==> depth <= budget.maxDepth && old(items) + 1 <= budget.maxItems
      ensures r.Ok? ==> Within() && items == old(items) + 1
    {
      if depth > budget.maxDepth {
        return Err(Truncated(DepthLimit, budget.maxDepth, depth));
      }
      items := items + 1;
      if items > budget.maxItems {
        return Err(ItemsTruncated());
      }
      return Ok(());
    }

    function ItemsTruncated(): Issue {
      Truncated(ItemLimit, budget.maxItems, budget.maxItems + 1)
    }

    method ChargeBytes(additional: nat) returns (r: Result<(), Issue>)
      requires Within()
      modifies this`bytes
      ensures r.Ok? <==> old(bytes) + additional <= budget.maxBytes
      ensures r.Ok? ==> Within() && bytes == old(bytes) + additional
    {
      bytes := bytes + additional;
      if bytes > budget.maxBytes {
        return Err(Truncated(ByteLimit, budget.maxBytes, bytes));
      }
      return Ok(());
    }

    method ChargeScalar(e: Expr) returns (r: Result<(), Issue>)
      requires Within()
      modifies this`bytes
      ensures r.Ok? <==> Charge(old(bytes), Charges(e), budget).Ok?
      ensures r.Ok? ==> Within() && Ok(bytes) == Charge(old(bytes), Charges(e), budget)
    {
      ChargeOk(bytes, Charges(e), budget);
      var charged := Charge(bytes, Charges(e), budget);
      if charged.Err? {
        return Err(charged.error);
      }
      bytes := charged.value;
      return Ok(());
    }

    /** consume_expr_tail: the rest of a snapshot whose root has been entered. */
    method ConsumeTail(e: Expr, depth: nat) returns (r: Result<Expr, Issue>)
      requires Within() && depth <= budget.maxDepth && items >= 1
      modifies this
      ensures r.Ok? <==> Admits(budget, old(items) - 1, old(bytes), depth, Measure(e))
      ensures r.Ok? ==> r.value == e && Within() && items == old(items) - 1 + Measure(e).nodes && bytes == old(bytes) + Measure(e).weight
    {
      hide Scan, Preorder, Pending, Pushed, Children, Charges, Charge, Measure, Admits, Walking, InOrder;
      ghost var wanted := InOrder(e, depth, items - 1, bytes, budget);
      InOrderMeasures(e, depth, items - 1, bytes, budget);
      RootTurn(e, depth, items, bytes, budget);
      var charged := ChargeScalar(e);
      if charged.Err? {
        return Err(charged.error);
      }
      var stack := Pushed(Children(e), depth + 1);
      while stack != []
        invariant Within() && Walking(wanted, stack, items, bytes, budget)
        decreases |Pending(stack)|
      {
        var top := stack[|stack| - 1];
        assert stack == stack[..|stack| - 1] + [top];
        stack := stack[..|stack| - 1];
        WalkTurn(wanted, stack, top, items, bytes, budget);
        var entered := Enter(top.depth);
        if entered.Err? {
          return Err(entered.error);
        }
        charged := ChargeScalar(top.expr);
        if charged.Err? {
          return Err(charged.error);
        }
        stack := stack + Pushed(Children(top.expr), top.depth + 1);
      }
      WalkEnds(wanted, items, bytes, budget);
      return Ok(e);
    }

    /** project_value: it succeeds exactly when every part can be projected and the
        projection fits what is left; the early cut-offs on lengths refuse nothing
        that would fit. */
    method ProjectValue(v: Value, depth: nat) returns (r: Result<Expr, Issue>)
      requires Within()
      modifies this
      ensures r.Ok? <==> Projectable(v) && Admits(budget, old(items), old(bytes), depth, Measure(Projection(v)))
      ensures r.Ok? ==> r.value == Projection(v) && Within()
                        && items == old(items) + Measure(Projection(v)).nodes && bytes == old(bytes) + Measure(Projection(v)).weight
      decreases v
    {
      if Projectable(v) {
        AtLeastTheNode(Projection(v), budget, items, bytes, depth);
      }
      hide Measure, Admits;
      var entered := Enter(depth);
      if entered.Err? {
        return Err(entered.error);
      }
      match v {
        case Callable =>
          return Err(Unsupported);
        case ListValue(values) =>
          r := ProjectList(values, depth);
        case TableValue(rows) =>
          r := ProjectTable(rows, depth);
        case Unreadable =>
          return Err(Unsupported);
        case Snapshot(expr) =>
          r := ConsumeTail(expr, depth);
      }
    }

    /** The list branch; its cut-off on the length refuses only what cannot fit. */
    method ProjectList(values: seq<Value>, depth: nat) returns (r: Result<Expr, Issue>)
      requires Within() && items >= 1 && depth <= budget.maxDepth
      modifies this
      ensures var v := ListValue(values);
              && (r.Ok? <==> Projectable(v) && Admits(budget, old(items) - 1, old(bytes), depth, Measure(Projection(v))))
              && (r.Ok? ==> r.value == Projection(v) && Within()
                            && items == old(items) - 1 + Measure(Projection(v)).nodes && bytes == old(bytes) + Measure(Projection(v)).weight)
      decreases values
    {
      ghost var v, items0, bytes0 := ListValue(values), items, bytes;
      hide Projectable, Projection, Admits, Measure;
      if Projectable(v) && Admits(budget, items0 - 1, bytes0, depth, Measure(Projection(v))) {
        ListFitsCount(values, budget, items0, bytes0, depth);
      }
      if |values| > RemainingItems() {
        return Err(ItemsTruncated());
      }
      var projected: seq<Expr> := [];
      ListStart(values, budget, items0, bytes0, depth);
      hide ListSoFar;
      for i := 0 to |values|
        invariant Within() && ListSoFar(values, i, projected, budget, items0, bytes0, items, bytes, depth)
      {
        if Projectable(v) && Admits(budget, items0 - 1, bytes0, depth, Measure(Projection(v))) {
          ListPart(values, i, projected, budget, items0, bytes0, items, bytes, depth);
        }
        ghost var items1, bytes1 := items, bytes;
        var one := ProjectValue(values[i], depth + 1);
        if one.Err? {
          return Err(one.error);
        }
        ListNext(values, i, projected, budget, items0, bytes0, items1, bytes1, depth);
        projected := projected + [one.value];
      }
      ListEnd(values, projected, budget, items0, bytes0, items, bytes, depth);
      return Ok(List(projected));
    }

    /** The table branch: every row costs at least a key and a value. */
    method ProjectTable(rows: seq<TableRow>, depth: nat) returns (r: Result<Expr, Issue>)
      requires Within() && items >= 1 && depth <= budget.maxDepth
      modifies this
      ensures var v := TableValue(rows);
              && (r.Ok? <==> Projectable(v) && Admits(budget, old(items) - 1, old(bytes), depth, Measure(Projection(v))))
              && (r.Ok? ==> r.value == Projection(v) && Within()
                            && items == old(items) - 1 + Measure(Projection(v)).nodes && bytes == old(bytes) + Measure(Projection(v)).weight)
      decreases rows
    {
      ghost var v, items0, bytes0 := TableValue(rows), items, bytes;
      hide Projectable, Projection, Admits, Measure;
      if Projectable(v) && Admits(budget, items0 - 1, bytes0, depth, Measure(Projection(v))) {
        TableFitsCount(rows, budget, items0, bytes0, depth);
      }
      if |rows| > RemainingItems() / 2 {
        return Err(ItemsTruncated());
      }
      var projected: seq<Entry> := [];
      TableStart(rows, budget, items0, bytes0, depth);
      hide TableSoFar;
      for i := 0 to |rows|
        invariant Within() && TableSoFar(rows, i, projected, budget, items0, bytes0, items, bytes, depth)
      {
        var row := rows[i];
        if Projectable(v) && Admits(budget, items0 - 1, bytes0, depth, Measure(Projection(v))) {
          TablePart(rows, i, projected, budget, items0, bytes0, items, bytes, depth);
        }
        ghost var items1, bytes1 := items, bytes;
        var entered := Enter(depth + 1);
        if entered.Err? {
          return Err(entered.error);
        }
        var charged := ChargeBytes(SymbolBytes(row.key));
        if charged.Err? {
          return Err(charged.error);
        }
        assert rows[i] == row && (rows decreases to row.value) by {
          assert rows decreases to rows[i];
        }
        var one := ProjectValue(row.value, depth + 1);
        if one.Err? {
          return Err(one.error);
        }
        TableNext(rows, i, projected, budget, items0, bytes0, items1, bytes1, depth);
        projected := projected + [Entry(Sym(row.key), one.value)];
      }
      TableEnd(rows, projected, budget, items0, bytes0, items, bytes, depth);
      return Ok(Map(projected));
    }
  }

  lemma RootStep(e: Expr, depth: nat)
    ensures Preorder(e, depth) == [Visit(e, depth)] + Pending(Pushed(Children(e), depth + 1))
  {
    hide Children;
    var n := |Children(e)|;
    PushedPending([], e, n, depth + 1);
    assert Children(e)[..n] == Children(e);
    assert [] + Pushed(Children(e), depth + 1) == Pushed(Children(e), depth + 1);
    assert PreorderOf(e, n, depth + 1) + [] == PreorderOf(e, n, depth + 1);
  }

  /** bounded_value_expr: a value is projected exactly when all of it can be and
      inspect_expr would let the projection pass. */
  method BoundedValueExpr(v: Value, budget: Budget) returns (r: Result<Expr, Issue>)
    ensures r.Ok? <==> Projectable(v) && Scan(Preorder(Projection(v), 0), 0, 0, budget).Ok?
    ensures r.Ok? ==> r.value == Projection(v)
  {
    if Projectable(v) {
      ScanMeasures(Projection(v), 0, 0, 0, budget);
    }
    hide Projectable, Projection, Measure, Scan, Preorder, Admits;
    var tracker := new FaceTracker(budget);
    r := tracker.ProjectValue(v, 0);
  }

  // ---- The list branch, step by step ----

  /** The first i items have been projected and paid for. */
  ghost predicate ListSoFar(values: seq<Value>, i: nat, projected: seq<Expr>, budget: Budget,
                            items0: nat, bytes0: nat, items: nat, bytes: nat, depth: nat) {
    && i <= |values| && (forall k :: 0 <= k < i ==> Projectable(values[k]))
    && projected == Projections(values[..i])
    && Admits(budget, items0, bytes0, depth, Row(projected))
    && items == items0 + Row(projected).nodes && bytes == bytes0 + Row(projected).weight
  }

  lemma ListStart(values: seq<Value>, budget: Budget, items0: nat, bytes0: nat, depth: nat)
    requires depth <= budget.maxDepth && items0 <= budget.maxItems && bytes0 <= budget.maxBytes
    ensures ListSoFar(values, 0, [], budget, items0, bytes0, items0, bytes0, depth)
  {
  }

  lemma ListFitsCount(values: seq<Value>, budget: Budget, items0: nat, bytes0: nat, depth: nat)
    requires Projectable(ListValue(values)) && items0 >= 1
    requires Admits(budget, items0 - 1, bytes0, depth, Measure(Projection(ListValue(values))))
    ensures items0 + |values| <= budget.maxItems
  {
    ListCost(values);
    RowCount(Projections(values));
  }

  /** If the whole list fits, the next item fits what is left. */
  lemma ListPart(values: seq<Value>, i: nat, projected: seq<Expr>, budget: Budget,
                 items0: nat, bytes0: nat, items: nat, bytes: nat, depth: nat)
    requires i < |values| && ListSoFar(values, i, projected, budget, items0, bytes0, items, bytes, depth)
    requires Projectable(ListValue(values)) && items0 >= 1
    requires Admits(budget, items0 - 1, bytes0, depth, Measure(Projection(ListValue(values))))
    ensures Projectable(values[i]) && Admits(budget, items, bytes, depth + 1, Measure(Projection(values[i])))
  {
    ListCost(values);
    var all := Projections(values);
    hide Measure;
    RowGrows(all, i + 1, budget, items0, bytes0, depth);
    assert all[..i + 1] == projected + [Projection(values[i])];
    RowPlus(projected, Projection(values[i]));
    AdmitsBeside(budget, items0, bytes0, depth, Row(projected), Measure(Projection(values[i])));
  }

  lemma ListNext(values: seq<Value>, i: nat, projected: seq<Expr>, budget: Budget,
                 items0: nat, bytes0: nat, items: nat, bytes: nat, depth: nat)
    requires i < |values| && ListSoFar(values, i, projected, budget, items0, bytes0, items, bytes, depth)
    requires Projectable(values[i]) && Admits(budget, items, bytes, depth + 1, Measure(Projection(values[i])))
    ensures var cost := Measure(Projection(values[i]));
            ListSoFar(values, i + 1, projected + [Projection(values[i])], budget, items0, bytes0, items + cost.nodes, bytes + cost.weight, depth)
  {
    hide Measure;
    assert Projections(values[..i + 1]) == projected + [Projection(values[i])];
    RowPlus(projected, Projection(values[i]));
    AdmitsBeside(budget, items0, bytes0, depth, Row(projected), Measure(Projection(values[i])));
  }

  lemma ListEnd(values: seq<Value>, projected: seq<Expr>, budget: Budget,
                items0: nat, bytes0: nat, items: nat, bytes: nat, depth: nat)
    requires ListSoFar(values, |values|, projected, budget, items0, bytes0, items, bytes, depth) && items0 >= 1
    ensures var v := ListValue(values);
            && Projectable(v) && Projection(v) == List(projected)
            && Admits(budget, items0 - 1, bytes0, depth, Measure(Projection(v)))
            && items == items0 - 1 + Measure(Projection(v)).nodes && bytes == bytes0 + Measure(Projection(v)).weight
  {
    assert values[..|values|] == values;
    ListCost(values);
  }

  // ---- The table branch, step by step ----

  ghost predicate TableSoFar(rows: seq<TableRow>, i: nat, projected: seq<Entry>, budget: Budget,
                             items0: nat, bytes0: nat, items: nat, bytes: nat, depth: nat) {
    && i <= |rows| && (forall k :: 0 <= k < i ==> RowProjectable(rows[k]))
    && projected == RowProjections(rows[..i])
    && Admits(budget, items0, bytes0, depth, Row(EntryParts(projected)))
    && items == items0 + Row(EntryParts(projected)).nodes && bytes == bytes0 + Row(EntryParts(projected)).weight
  }

  lemma TableStart(rows: seq<TableRow>, budget: Budget, items0: nat, bytes0: nat, depth: nat)
    requires depth <= budget.maxDepth && items0 <= budget.maxItems && bytes0 <= budget.maxBytes
    ensures TableSoFar(rows, 0, [], budget, items0, bytes0, items0, bytes0, depth)
  {
  }

  lemma TableFitsCount(rows: seq<TableRow>, budget: Budget, items0: nat, bytes0: nat, depth: nat)
    requires Projectable(TableValue(rows)) && items0 >= 1
    requires Admits(budget, items0 - 1, bytes0, depth, Measure(Projection(TableValue(rows))))
    ensures items0 + 2 * |rows| <= budget.maxItems
  {
    TableCost(rows);
    RowCount(EntryParts(RowProjections(rows)));
  }

  /** A row's key and value, one after the other. */
  lemma EntryCost(projected: seq<Entry>, row: TableRow, budget: Budget, items0: nat, bytes0: nat, depth: nat)
    requires RowProjectable(row) && Admits(budget, items0, bytes0, depth, Row(EntryParts(projected)))
    ensures var before, after := Row(EntryParts(projected)), Row(EntryParts(projected + [RowProjection(row)]));
            var value := Measure(Projection(row.value));
            && after.nodes == before.nodes + 1 + value.nodes && after.weight == before.weight + SymbolBytes(row.key) + value.weight
            && (Admits(budget, items0, bytes0, depth, after) <==>
                  depth + 1 <= budget.maxDepth && items0 + before.nodes + 1 <= budget.maxItems
                  && bytes0 + before.weight + SymbolBytes(row.key) <= budget.maxBytes
                  && Admits(budget, items0 + before.nodes + 1, bytes0 + before.weight + SymbolBytes(row.key), depth + 1, value))
  {
    hide EntryParts, Row, Measure, Projection, Projectable, Children, Charges;
    var parts, key, value := EntryParts(projected), Sym(row.key), Projection(row.value);
    EntryPartsPlus(projected, RowProjection(row));
    KeyCost(row.key);
    RowPlus(parts, key);
    RowPlus(parts + [key], value);
    EntryCostIs(Row(parts), Measure(key), Measure(value), budget, items0, bytes0, depth);
    hide Beside, Admits;
  }

  lemma EntryCostIs(row: Cost, key: Cost, value: Cost, budget: Budget, items0: nat, bytes0: nat, depth: nat)
    requires Admits(budget, items0, bytes0, depth, row) && key.nodes == 1 && key.height == 0
    ensures var after := Beside(Beside(row, key), value);
            && after.nodes == row.nodes + 1 + value.nodes && after.weight == row.weight + key.weight + value.weight
            && (Admits(budget, items0, bytes0, depth, after) <==>
                  depth + 1 <= budget.maxDepth && items0 + row.nodes + 1 <= budget.maxItems && bytes0 + row.weight + key.weight <= budget.maxBytes
                  && Admits(budget, items0 + row.nodes + 1, bytes0 + row.weight + key.weight, depth + 1, value))
  {
  }

  lemma TablePart(rows: seq<TableRow>, i: nat, projected: seq<Entry>, budget: Budget,
                  items0: nat, bytes0: nat, items: nat, bytes: nat, depth: nat)
    requires i < |rows| && TableSoFar(rows, i, projected, budget, items0, bytes0, items, bytes, depth)
    requires Projectable(TableValue(rows)) && items0 >= 1
    requires Admits(budget, items0 - 1, bytes0, depth, Measure(Projection(TableValue(rows))))
    ensures depth + 1 <= budget.maxDepth && items + 1 <= budget.maxItems && bytes + SymbolBytes(rows[i].key) <= budget.maxBytes
    ensures Projectable(rows[i].value)
    ensures Admits(budget, items + 1, bytes + SymbolBytes(rows[i].key), depth + 1, Measure(Projection(rows[i].value)))
  {
    hide EntryParts, Row, Measure, Projection, Projectable, Children, Charges, Beside, RowProjection, RowProjectable;
    RowsProjectable(rows);
    TableCost(rows);
    var all := RowProjections(rows);
    PartsPrefix(all, i + 1);
    EntryPartsCount(all);
    AdmitsAbove(budget, items0, bytes0, depth, Row(EntryParts(all)));
    RowGrows(EntryParts(all), 2 * (i + 1), budget, items0, bytes0, depth);
    assert all[..i + 1] == projected + [RowProjection(rows[i])];
    EntryCost(projected, rows[i], budget, items0, bytes0, depth);
  }

  lemma RowsProjectable(rows: seq<TableRow>)
    requires Projectable(TableValue(rows))
    ensures forall i :: 0 <= i < |rows| ==> RowProjectable(rows[i]) && Projectable(rows[i].value)
  {
    assert forall i :: 0 <= i < |rows| ==> RowProjectable(rows[i]);
  }

  lemma EntryPartsCount(entries: seq<Entry>)
    ensures |EntryParts(entries)| == 2 * |entries|
  {
  }

  lemma AdmitsAbove(budget: Budget, items: nat, bytes: nat, depth: nat, row: Cost)
    requires items >= 1
    ensures Admits(budget, items - 1, bytes, depth, Above(0, row)) <==> Admits(budget, items, bytes, depth, row)
  {
  }

  lemma PartsPrefix(entries: seq<Entry>, n: nat)
    requires n <= |entries|
    ensures EntryParts(entries[..n]) == EntryParts(entries)[..2 * n]
  {
    assert entries == entries[..n] + entries[n..];
    EntryPartsConcat(entries[..n], entries[n..]);
  }

  lemma TableNext(rows: seq<TableRow>, i: nat, projected: seq<Entry>, budget: Budget,
                  items0: nat, bytes0: nat, items: nat, bytes: nat, depth: nat)
    requires i < |rows| && TableSoFar(rows, i, projected, budget, items0, bytes0, items, bytes, depth)
    requires depth + 1 <= budget.maxDepth && items + 1 <= budget.maxItems && bytes + SymbolBytes(rows[i].key) <= budget.maxBytes
    requires Projectable(rows[i].value)
    requires Admits(budget, items + 1, bytes + SymbolBytes(rows[i].key), depth + 1, Measure(Projection(rows[i].value)))
    ensures var cost := Measure(Projection(rows[i].value));
            TableSoFar(rows, i + 1, projected + [Entry(Sym(rows[i].key), Projection(rows[i].value))], budget, items0, bytes0,
                       items + 1 + cost.nodes, bytes + SymbolBytes(rows[i].key) + cost.weight, depth)
  {
    hide Measure;
    assert RowProjectable(rows[i]);
    assert RowProjections(rows[..i + 1]) == projected + [RowProjection(rows[i])];
    EntryCost(projected, rows[i], budget, items0, bytes0, depth);
  }

  lemma TableEnd(rows: seq<TableRow>, projected: seq<Entry>, budget: Budget,
                 items0: nat, bytes0: nat, items: nat, bytes: nat, depth: nat)
    requires TableSoFar(rows, |rows|, projected, budget, items0, bytes0, items, bytes, depth) && items0 >= 1
    ensures var v := TableValue(rows);
            && Projectable(v) && Projection(v) == Map(projected)
            && Admits(budget, items0 - 1, bytes0, depth, Measure(Projection(v)))
            && items == items0 - 1 + Measure(Projection(v)).nodes && bytes == bytes0 + Measure(Projection(v)).weight
  {
    assert rows[..|rows|] == rows;
    TableCost(rows);
  }

  lemma AtLeastTheNode(e: Expr, budget: Budget, items: nat, bytes: nat, depth: nat)
    ensures Admits(budget, items, bytes, depth, Measure(e)) ==> depth <= budget.maxDepth && items + 1 <= budget.maxItems
  {
  }

  lemma ListCost(values: seq<Value>)
    requires Projectable(ListValue(values))
    ensures Projection(ListValue(values)) == List(Projections(values))
    ensures Measure(Projection(ListValue(values))) == Above(0, Row(Projections(values)))
  {
    MeasureIs(List(Projections(values)));
  }

  lemma TableCost(rows: seq<TableRow>)
    requires Projectable(TableValue(rows))
    ensures Projection(TableValue(rows)) == Map(RowProjections(rows))
    ensures Measure(Projection(TableValue(rows))) == Above(0, Row(EntryParts(RowProjections(rows))))
  {
    MeasureIs(Map(RowProjections(rows)));
  }
}
