/** What an expression costs. */
module FaceCosts {
  // Nodes, depth and bytes, constructor by constructor, and what the bounded walk
  // accepts in these terms.

  import opened Syntax
  import opened Faces

  function Greater(a: nat, b: nat): nat {
    if a < b then b else a
  }

  /** The nodes of an expression: itself and those of its arguments. */
  function Nodes(e: Expr): nat
    decreases e
  {
    match e
    case Nil => 1
    case Bool(_) => 1
    case Number(_, _) => 1
    case Sym(_) => 1
    case Local(_) => 1
    case Str(_) => 1
    case Bytes(_) => 1
    case List(items) => 1 + NodesOf(items)
    case Vector(items) => 1 + NodesOf(items)
    case Set(items) => 1 + NodesOf(items)
    case Block(items) => 1 + NodesOf(items)
    case Map(entries) => 1 + NodesIn(entries)
    case Call(operator, args) => 1 + Nodes(operator) + NodesOf(args)
    case Infix(_, left, right) => 1 + Nodes(left) + Nodes(right)
    case Prefix(_, arg) => 1 + Nodes(arg)
    case Postfix(_, arg) => 1 + Nodes(arg)
    case Quote(quoted) => 1 + Nodes(quoted)
    case Annotated(inner, annotations) => 1 + Nodes(inner) + NodesAt(annotations)
    case Extension(_, payload) => 1 + Nodes(payload)
  }

  function NodesOf(items: seq<Expr>): nat
    decreases items
  {
    if items == [] then 0 else Nodes(items[0]) + NodesOf(items[1..])
  }

  function NodesIn(entries: seq<Entry>): nat
    decreases entries
  {
    if entries == [] then 0
    else
      assert entries[0].key < entries[0] && entries[0].value < entries[0];
      Nodes(entries[0].key) + Nodes(entries[0].value) + NodesIn(entries[1..])
  }

  function NodesAt(annotations: seq<Annotation>): nat
    decreases annotations
  {
    if annotations == [] then 0
    else
      assert annotations[0].value < annotations[0];
      Nodes(annotations[0].value) + NodesAt(annotations[1..])
  }

  /** How far below an expression its deepest part is. */
  function Depth(e: Expr): nat
    decreases e
  {
    match e
    case Nil => 0
    case Bool(_) => 0
    case Number(_, _) => 0
    case Sym(_) => 0
    case Local(_) => 0
    case Str(_) => 0
    case Bytes(_) => 0
    case List(items) => DepthOf(items)
    case Vector(items) => DepthOf(items)
    case Set(items) => DepthOf(items)
    case Block(items) => DepthOf(items)
    case Map(entries) => DepthIn(entries)
    case Call(operator, args) => Greater(1 + Depth(operator), DepthOf(args))
    case Infix(_, left, right) => 1 + Greater(Depth(left), Depth(right))
    case Prefix(_, arg) => 1 + Depth(arg)
    case Postfix(_, arg) => 1 + Depth(arg)
    case Quote(quoted) => 1 + Depth(quoted)
    case Annotated(inner, annotations) => Greater(1 + Depth(inner), DepthAt(annotations))
    case Extension(_, payload) => 1 + Depth(payload)
  }

  function DepthOf(items: seq<Expr>): nat
    decreases items
  {
    if items == [] then 0 else Greater(1 + Depth(items[0]), DepthOf(items[1..]))
  }

  function DepthIn(entries: seq<Entry>): nat
    decreases entries
  {
    if entries == [] then 0
    else
      assert entries[0].key < entries[0] && entries[0].value < entries[0];
      Greater(1 + Greater(Depth(entries[0].key), Depth(entries[0].value)), DepthIn(entries[1..]))
  }

  function DepthAt(annotations: seq<Annotation>): nat
    decreases annotations
  {
    if annotations == [] then 0
    else
      assert annotations[0].value < annotations[0];
      Greater(1 + Depth(annotations[0].value), DepthAt(annotations[1..]))
  }

  /** The bytes of all texts and names in an expression. */
  function Weight(e: Expr): nat
    decreases e
  {
    match e
    case Nil => 0
    case Bool(_) => 0
    case Number(domain, canonical) => |domain.Text()| + |canonical|
    case Sym(symbol) => |symbol.Text()|
    case Local(symbol) => |symbol.Text()|
    case Str(text) => |text|
    case Bytes(bytes) => |bytes|
    case List(items) => WeightOf(items)
    case Vector(items) => WeightOf(items)
    case Set(items) => WeightOf(items)
    case Block(items) => WeightOf(items)
    case Map(entries) => WeightIn(entries)
    case Call(operator, args) => Weight(operator) + WeightOf(args)
    case Infix(op, left, right) => |op.Text()| + Weight(left) + Weight(right)
    case Prefix(op, arg) => |op.Text()| + Weight(arg)
    case Postfix(op, arg) => |op.Text()| + Weight(arg)
    case Quote(quoted) => Weight(quoted)
    case Annotated(inner, annotations) => Weight(inner) + WeightAt(annotations)
    case Extension(tag, payload) => |tag.Text()| + Weight(payload)
  }

  function WeightOf(items: seq<Expr>): nat
    decreases items
  {
    if items == [] then 0 else Weight(items[0]) + WeightOf(items[1..])
  }

  function WeightIn(entries: seq<Entry>): nat
    decreases entries
  {
    if entries == [] then 0
    else
      assert entries[0].key < entries[0] && entries[0].value < entries[0];
      Weight(entries[0].key) + Weight(entries[0].value) + WeightIn(entries[1..])
  }

  function WeightAt(annotations: seq<Annotation>): nat
    decreases annotations
  {
    if annotations == [] then 0
    else
      assert annotations[0].value < annotations[0];
      |annotations[0].name.Text()| + Weight(annotations[0].value) + WeightAt(annotations[1..])
  }

  // ---- The walk charges just that ----

  ghost predicate Costs(e: Expr) {
    Measure(e) == Cost(Nodes(e), Depth(e), Weight(e))
  }

  /** A row with a tree in front. */
  lemma {:induction false} RowFront(x: Expr, xs: seq<Expr>)
    ensures var m, row := Measure(x), Row(xs);
            Row([x] + xs) == Cost(m.nodes + row.nodes, Greater(1 + m.height, row.height), m.weight + row.weight)
    decreases |xs|
  {
    hide Measure;
    if xs == [] {
      assert [x] + xs == [x] && [x][..0] == [];
      assert Row([x]) == Beside(Row([]), Measure(x));
    } else {
      RowFront(x, xs[..|xs| - 1]);
      assert ([x] + xs)[..|xs|] == [x] + xs[..|xs| - 1];
    }
  }

  lemma {:induction false} RowIs(items: seq<Expr>)
    requires forall i :: 0 <= i < |items| ==> Costs(items[i])
    ensures Row(items) == Cost(NodesOf(items), DepthOf(items), WeightOf(items))
    decreases |items|
  {
    hide Measure, Nodes, Depth, Weight;
    if items != [] {
      RowIs(items[1..]);
      assert items == [items[0]] + items[1..];
      RowFront(items[0], items[1..]);
    }
  }

  lemma {:induction false} EntriesAre(entries: seq<Entry>)
    requires forall i :: 0 <= i < |entries| ==> Costs(entries[i].key) && Costs(entries[i].value)
    ensures Row(EntryParts(entries)) == Cost(NodesIn(entries), DepthIn(entries), WeightIn(entries))
    decreases |entries|
  {
    hide Measure, Nodes, Depth, Weight, Row;
    if entries == [] {
      NothingInRow();
    } else {
      var key, value, rest := entries[0].key, entries[0].value, EntryParts(entries[1..]);
      EntriesAre(entries[1..]);
      assert EntryParts(entries) == [key] + ([value] + rest);
      assert Costs(key) && Costs(value);
      RowFront(key, [value] + rest);
      RowFront(value, rest);
    }
  }

  lemma NothingInRow()
    ensures Row([]) == Cost(0, 0, 0)
  {
  }

  lemma {:induction false} AnnotationsAre(annotations: seq<Annotation>)
    requires forall i :: 0 <= i < |annotations| ==> Costs(annotations[i].value)
    ensures var row := Row(AnnotationParts(annotations));
            && row.nodes == NodesAt(annotations) && row.height == DepthAt(annotations)
            && NameBytes(annotations) + row.weight == WeightAt(annotations)
    decreases |annotations|
  {
    hide Measure, Nodes, Depth, Weight, Row, Symbol.Text;
    if annotations == [] {
      NothingInRow();
    } else {
      AnnotationsAre(annotations[1..]);
      var value := annotations[0].value;
      assert AnnotationParts(annotations) == [value] + AnnotationParts(annotations[1..]);
      assert Costs(value);
      RowFront(value, AnnotationParts(annotations[1..]));
    }
  }

  function NameBytes(annotations: seq<Annotation>): nat {
    if annotations == [] then 0 else |annotations[0].name.Text()| + NameBytes(annotations[1..])
  }

  lemma {:induction false} NamesCharged(annotations: seq<Annotation>)
    ensures Sum(seq(|annotations|, i requires 0 <= i < |annotations| => SymbolBytes(annotations[i].name))) == NameBytes(annotations)
    decreases |annotations|
  {
    hide SymbolBytes, Symbol.Text;
    var charges := seq(|annotations|, i requires 0 <= i < |annotations| => SymbolBytes(annotations[i].name));
    if annotations != [] {
      NamesCharged(annotations[1..]);
      SymbolCharged(annotations[0].name);
      assert charges[1..] == seq(|annotations[1..]|, i requires 0 <= i < |annotations[1..]| => SymbolBytes(annotations[1..][i].name));
    }
  }

  lemma SymbolCharged(s: Symbol)
    ensures SymbolBytes(s) == |s.Text()|
  {
  }

  /** The scalars charged for a node are the texts and names it holds itself. */
  function OwnBytes(e: Expr): nat {
    match e
    case Number(domain, canonical) => |domain.Text()| + |canonical|
    case Sym(symbol) => |symbol.Text()|
    case Local(symbol) => |symbol.Text()|
    case Str(text) => |text|
    case Bytes(bytes) => |bytes|
    case Infix(op, _, _) => |op.Text()|
    case Prefix(op, _) => |op.Text()|
    case Postfix(op, _) => |op.Text()|
    case Annotated(_, annotations) => NameBytes(annotations)
    case Extension(tag, _) => |tag.Text()|
    case _ => 0
  }

  lemma FewCharges(charges: seq<nat>)
    ensures charges == [] ==> Sum(charges) == 0
    ensures |charges| == 1 ==> Sum(charges) == charges[0]
    ensures |charges| == 2 ==> Sum(charges) == charges[0] + charges[1]
  {
    if |charges| > 1 {
      FewCharges(charges[1..]);
    }
  }

  lemma OwnCharged(e: Expr)
    ensures Sum(Charges(e)) == OwnBytes(e)
  {
    FewCharges(Charges(e));
    hide Sum, SymbolBytes, Symbol.Text;
    match e
    case Number(domain, canonical) => SymbolCharged(domain);
    case Sym(symbol) => SymbolCharged(symbol);
    case Local(symbol) => SymbolCharged(symbol);
    case Infix(op, _, _) => SymbolCharged(op);
    case Prefix(op, _) => SymbolCharged(op);
    case Postfix(op, _) => SymbolCharged(op);
    case Extension(tag, _) => SymbolCharged(tag);
    case Annotated(_, annotations) => NamesCharged(annotations);
    case _ =>
  }

  lemma RowOfOne(x: Expr)
    requires Costs(x)
    ensures Row([x]) == Cost(Nodes(x), 1 + Depth(x), Weight(x))
  {
    hide Row, Nodes, Depth, Weight, Measure;
    RowFront(x, []);
    assert [x] + [] == [x];
    NothingInRow();
  }

  lemma RowOfTwo(x: Expr, y: Expr)
    requires Costs(x) && Costs(y)
    ensures Row([x, y]) == Cost(Nodes(x) + Nodes(y), 1 + Greater(Depth(x), Depth(y)), Weight(x) + Weight(y))
  {
    hide Row, Nodes, Depth, Weight, Measure;
    RowOfOne(y);
    RowFront(x, [y]);
    assert [x] + [y] == [x, y];
  }

  lemma RowAndLast(xs: seq<Expr>, x: Expr)
    requires Costs(x)
    ensures Row(xs + [x]) == Cost(Row(xs).nodes + Nodes(x), Greater(Row(xs).height, 1 + Depth(x)), Row(xs).weight + Weight(x))
  {
    hide Nodes, Depth, Weight, Measure;
    RowPlus(xs, x);
  }

  /** The cost of a node is its own bytes and what the row of its children costs. */
  lemma NodeAndRow(e: Expr, row: Cost)
    requires Row(Children(e)) == row
    ensures Measure(e) == Cost(1 + row.nodes, row.height, OwnBytes(e) + row.weight)
  {
    MeasureIs(e);
    OwnCharged(e);
    hide Measure, Row, Children, Charges, OwnBytes;
  }

  /** Every kind of expression costs its nodes, its depth and its bytes. */
  lemma {:induction false} MeasureMeans(e: Expr)
    ensures Costs(e)
    decreases e
  {
    hide Measure, Row, NodesOf, NodesIn, NodesAt, DepthOf, DepthIn, DepthAt, WeightOf, WeightIn, WeightAt, EntryParts, AnnotationParts,
         Symbol.Text, NameBytes;
    match e
    case List(items) => PartsMean(e, items);
    case Vector(items) => PartsMean(e, items);
    case Set(items) => PartsMean(e, items);
    case Block(items) => PartsMean(e, items);
    case Map(entries) =>
      forall i | 0 <= i < |entries| ensures Costs(entries[i].key) && Costs(entries[i].value) {
        assert entries[i] < e && entries[i].key < entries[i] && entries[i].value < entries[i];
        MeasureMeans(entries[i].key);
        MeasureMeans(entries[i].value);
      }
      EntriesAre(entries);
      NodeAndRow(e, Row(EntryParts(entries)));
    case Call(operator, args) =>
      MeasureMeans(operator);
      forall i | 0 <= i < |args| ensures Costs(args[i]) {
        MeasureMeans(args[i]);
      }
      RowIs(args);
      RowFront(operator, args);
      NodeAndRow(e, Row([operator] + args));
    case Infix(_, left, right) =>
      MeasureMeans(left);
      MeasureMeans(right);
      RowOfTwo(left, right);
      NodeAndRow(e, Row([left, right]));
    case Prefix(_, arg) => OneMeans(e, arg);
    case Postfix(_, arg) => OneMeans(e, arg);
    case Quote(quoted) => OneMeans(e, quoted);
    case Extension(_, payload) => OneMeans(e, payload);
    case Annotated(inner, annotations) =>
      MeasureMeans(inner);
      forall i | 0 <= i < |annotations| ensures Costs(annotations[i].value) {
        assert annotations[i] < e && annotations[i].value < annotations[i];
        MeasureMeans(annotations[i].value);
      }
      AnnotationsAre(annotations);
      RowAndLast(AnnotationParts(annotations), inner);
      NodeAndRow(e, Row(AnnotationParts(annotations) + [inner]));
    case _ =>
      NothingInRow();
      NodeAndRow(e, Row([]));
  }

  lemma {:induction false} PartsMean(e: Expr, items: seq<Expr>)
    requires e == List(items) || e == Vector(items) || e == Set(items) || e == Block(items)
    ensures Costs(e)
    decreases e, 0
  {
    hide Measure, Row, NodesOf, DepthOf, WeightOf;
    forall i | 0 <= i < |items| ensures Costs(items[i]) {
      MeasureMeans(items[i]);
    }
    RowIs(items);
    NodeAndRow(e, Row(items));
  }

  lemma {:induction false} OneMeans(e: Expr, arg: Expr)
    requires (e.Prefix? && e.arg == arg) || (e.Postfix? && e.arg == arg) || e == Quote(arg) || (e.Extension? && e.payload == arg)
    ensures Costs(e)
    decreases e, 0
  {
    hide Measure, Row, Symbol.Text;
    MeasureMeans(arg);
    RowOfOne(arg);
    NodeAndRow(e, Row([arg]));
  }

  /** The inspection passes exactly the expressions whose depth, nodes and bytes are
      within the budget. */
  lemma InspectionMeans(e: Expr, budget: Budget)
    ensures Admits(budget, 0, 0, 0, Measure(e)) <==> Depth(e) <= budget.maxDepth && Nodes(e) <= budget.maxItems && Weight(e) <= budget.maxBytes
  {
    MeasureMeans(e);
    hide Measure, Depth, Nodes, Weight;
  }

  // ---- In which order ----

  /** The visits to an expression as it is laid out: itself, then its parts from left to
      right, annotations before what they annotate. */
  function Laid(e: Expr, depth: nat): seq<Visit>
    decreases e
  {
    [Visit(e, depth)]
    + match e
      case List(items) => LaidOf(items, depth + 1)
      case Vector(items) => LaidOf(items, depth + 1)
      case Set(items) => LaidOf(items, depth + 1)
      case Block(items) => LaidOf(items, depth + 1)
      case Map(entries) => LaidIn(entries, depth + 1)
      case Call(operator, args) => Laid(operator, depth + 1) + LaidOf(args, depth + 1)
      case Infix(_, left, right) => Laid(left, depth + 1) + Laid(right, depth + 1)
      case Prefix(_, arg) => Laid(arg, depth + 1)
      case Postfix(_, arg) => Laid(arg, depth + 1)
      case Quote(quoted) => Laid(quoted, depth + 1)
      case Annotated(inner, annotations) => LaidAt(annotations, depth + 1) + Laid(inner, depth + 1)
      case Extension(_, payload) => Laid(payload, depth + 1)
      case _ => []
  }

  function LaidOf(items: seq<Expr>, depth: nat): seq<Visit>
    decreases items
  {
    if items == [] then [] else Laid(items[0], depth) + LaidOf(items[1..], depth)
  }

  function LaidIn(entries: seq<Entry>, depth: nat): seq<Visit>
    decreases entries
  {
    if entries == [] then []
    else
      assert entries[0].key < entries[0] && entries[0].value < entries[0];
      Laid(entries[0].key, depth) + Laid(entries[0].value, depth) + LaidIn(entries[1..], depth)
  }

  function LaidAt(annotations: seq<Annotation>, depth: nat): seq<Visit>
    decreases annotations
  {
    if annotations == [] then []
    else
      assert annotations[0].value < annotations[0];
      Laid(annotations[0].value, depth) + LaidAt(annotations[1..], depth)
  }

  /** The visits of some expressions one after another. */
  function Line(es: seq<Expr>, depth: nat): seq<Visit> {
    if es == [] then [] else Preorder(es[0], depth) + Line(es[1..], depth)
  }

  lemma {:induction false} LineBoth(a: seq<Expr>, b: seq<Expr>, depth: nat)
    ensures Line(a + b, depth) == Line(a, depth) + Line(b, depth)
    decreases |a|
  {
    hide Preorder;
    if a == [] {
      assert a + b == b;
    } else {
      assert (a + b)[0] == a[0] && (a + b)[1..] == a[1..] + b;
      LineBoth(a[1..], b, depth);
    }
  }

  lemma LineOne(x: Expr, depth: nat)
    ensures Line([x], depth) == Preorder(x, depth)
  {
    assert [x][1..] == [];
    hide Preorder;
  }

  lemma {:induction false} PreorderLine(e: Expr, n: nat, depth: nat)
    requires n <= |Children(e)|
    ensures PreorderOf(e, n, depth) == Line(Children(e)[..n], depth)
    decreases n
  {
    hide Children, Preorder;
    if n > 0 {
      PreorderLine(e, n - 1, depth);
      assert Children(e)[..n] == Children(e)[..n - 1] + [Children(e)[n - 1]];
      LineBoth(Children(e)[..n - 1], [Children(e)[n - 1]], depth);
      LineOne(Children(e)[n - 1], depth);
    }
  }

  lemma NodeLine(e: Expr, depth: nat)
    ensures Preorder(e, depth) == [Visit(e, depth)] + Line(Children(e), depth + 1)
  {
    PreorderLine(e, |Children(e)|, depth + 1);
    assert Children(e)[..|Children(e)|] == Children(e);
    hide Children, Line, PreorderOf;
  }

  ghost predicate InPlace(e: Expr, depth: nat) {
    Preorder(e, depth) == Laid(e, depth)
  }

  lemma {:induction false} LineIsLaid(items: seq<Expr>, depth: nat)
    requires forall i :: 0 <= i < |items| ==> InPlace(items[i], depth)
    ensures Line(items, depth) == LaidOf(items, depth)
    decreases |items|
  {
    hide Preorder, Laid;
    if items != [] {
      LineIsLaid(items[1..], depth);
      assert InPlace(items[0], depth);
    }
  }

  lemma {:induction false} EntriesAreLaid(entries: seq<Entry>, depth: nat)
    requires forall i :: 0 <= i < |entries| ==> InPlace(entries[i].key, depth) && InPlace(entries[i].value, depth)
    ensures Line(EntryParts(entries), depth) == LaidIn(entries, depth)
    decreases |entries|
  {
    hide Preorder, Laid;
    if entries != [] {
      EntriesAreLaid(entries[1..], depth);
      assert InPlace(entries[0].key, depth) && InPlace(entries[0].value, depth);
      var rest := EntryParts(entries[1..]);
      assert EntryParts(entries) == [entries[0].key, entries[0].value] + rest;
      LinePair(entries[0].key, entries[0].value, rest, depth);
    }
  }

  lemma LinePair(x: Expr, y: Expr, rest: seq<Expr>, depth: nat)
    ensures Line([x, y] + rest, depth) == Preorder(x, depth) + Preorder(y, depth) + Line(rest, depth)
  {
    assert [x, y] + rest == [x] + ([y] + rest);
    LineBoth([x], [y] + rest, depth);
    LineBoth([y], rest, depth);
    LineOne(x, depth);
    LineOne(y, depth);
    hide Preorder, Line;
  }

  lemma {:induction false} AnnotationsAreLaid(annotations: seq<Annotation>, depth: nat)
    requires forall i :: 0 <= i < |annotations| ==> InPlace(annotations[i].value, depth)
    ensures Line(AnnotationParts(annotations), depth) == LaidAt(annotations, depth)
    decreases |annotations|
  {
    hide Preorder, Laid;
    if annotations != [] {
      AnnotationsAreLaid(annotations[1..], depth);
      assert InPlace(annotations[0].value, depth);
      var parts := AnnotationParts(annotations);
      assert parts[0] == annotations[0].value && parts[1..] == AnnotationParts(annotations[1..]);
    }
  }

  /** The walk meets the parts as they are laid out, so the first limit that breaks from
      left to right is the one reported. */
  lemma {:induction false} WalkedAsLaid(e: Expr, depth: nat)
    ensures Preorder(e, depth) == Laid(e, depth)
    decreases e
  {
    hide Preorder, Line, LaidOf, LaidIn, LaidAt, EntryParts, AnnotationParts;
    NodeLine(e, depth);
    match e
    case List(items) => AllAsLaid(e, items, depth + 1);
    case Vector(items) => AllAsLaid(e, items, depth + 1);
    case Set(items) => AllAsLaid(e, items, depth + 1);
    case Block(items) => AllAsLaid(e, items, depth + 1);
    case Map(entries) =>
      forall i | 0 <= i < |entries| ensures InPlace(entries[i].key, depth + 1) && InPlace(entries[i].value, depth + 1) {
        assert entries[i] < e && entries[i].key < entries[i] && entries[i].value < entries[i];
        WalkedAsLaid(entries[i].key, depth + 1);
        WalkedAsLaid(entries[i].value, depth + 1);
      }
      EntriesAreLaid(entries, depth + 1);
    case Call(operator, args) =>
      WalkedAsLaid(operator, depth + 1);
      AllAsLaid(e, args, depth + 1);
      LineBoth([operator], args, depth + 1);
      LineOne(operator, depth + 1);
    case Infix(_, left, right) =>
      WalkedAsLaid(left, depth + 1);
      WalkedAsLaid(right, depth + 1);
      LinePair(left, right, [], depth + 1);
      assert [left, right] + [] == [left, right] && Line([], depth + 1) == [] by { NoLine(depth + 1); }
    case Prefix(_, arg) =>
      WalkedAsLaid(arg, depth + 1);
      LineOne(arg, depth + 1);
    case Postfix(_, arg) =>
      WalkedAsLaid(arg, depth + 1);
      LineOne(arg, depth + 1);
    case Quote(quoted) =>
      WalkedAsLaid(quoted, depth + 1);
      LineOne(quoted, depth + 1);
    case Extension(_, payload) =>
      WalkedAsLaid(payload, depth + 1);
      LineOne(payload, depth + 1);
    case Annotated(inner, annotations) =>
      WalkedAsLaid(inner, depth + 1);
      forall i | 0 <= i < |annotations| ensures InPlace(annotations[i].value, depth + 1) {
        assert annotations[i] < e && annotations[i].value < annotations[i];
        WalkedAsLaid(annotations[i].value, depth + 1);
      }
      AnnotationsAreLaid(annotations, depth + 1);
      LineBoth(AnnotationParts(annotations), [inner], depth + 1);
      LineOne(inner, depth + 1);
    case _ => NoLine(depth + 1);
  }

  lemma NoLine(depth: nat)
    ensures Line([], depth) == []
  {
  }

  lemma {:induction false} AllAsLaid(context: Expr, items: seq<Expr>, depth: nat)
    requires forall i :: 0 <= i < |items| ==> items[i] < context
    ensures Line(items, depth) == LaidOf(items, depth)
    decreases context, 0
  {
    hide Preorder, Laid, Line, LaidOf;
    forall i | 0 <= i < |items| ensures InPlace(items[i], depth) {
      WalkedAsLaid(items[i], depth);
    }
    LineIsLaid(items, depth);
  }
}
