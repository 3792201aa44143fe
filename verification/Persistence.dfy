/** The derived snapshot. */
module Persistence {
  // What is written, what is read back, and when a restart takes it.

  import opened Collections
  import opened Syntax
  import opened Texts
  import opened Records
  import opened GraphCodec
  import opened StateCodec
  import opened Scheduling
  import opened Schedulers

  const GRAPH_SCHEMA_VERSION := 1
  const MAX_GRAPH_NODES := 100000
  const MAX_GRAPH_EDGES := 1000000

  datatype Persisted = Persisted(
    schema: Word, sourceGeneration: Word, controlGeneration: Word, sourceIdentity: Word, controlIdentity: Word,
    graph: seq<Node>, reverse: map<Query, set<Query>>, receipts: map<string, Receipt>, queue: QueueSnapshot,
    nextRequest: Word, nextTick: Word, nextVolatile: Word, samples: map<string, Sample>, lastGood: map<string, Expr>)

  // ---- Reverse edges ----

  function DependencyKeys(nodes: seq<Node>): set<Query> {
    set n, o | n in nodes && o in n.dependencies :: o.key
  }

  predicate DependsOn(n: Node, key: Query) {
    exists o | o in n.dependencies :: o.key == key
  }

  /** For every key observed, the nodes that observed it. */
  function ReverseOf(nodes: seq<Node>): map<Query, set<Query>> {
    map key | key in DependencyKeys(nodes) :: set n | n in nodes && DependsOn(n, key) :: n.key
  }

  /** The reverse edges are exactly the dependency relation read backwards. */
  lemma ReverseIsInverse(nodes: seq<Node>, key: Query, dependent: Query)
    ensures (key in ReverseOf(nodes) && dependent in ReverseOf(nodes)[key])
            <==> exists n, o :: n in nodes && o in n.dependencies && o.key == key && n.key == dependent
  {
    if n, o :| n in nodes && o in n.dependencies && o.key == key && n.key == dependent {
      assert DependsOn(n, key);
    }
  }

  ghost predicate Has(reverse: map<Query, set<Query>>, key: Query, dependent: Query) {
    key in reverse && dependent in reverse[key]
  }

  ghost predicate NoneEmpty(reverse: map<Query, set<Query>>) {
    forall key :: key in reverse ==> reverse[key] != {}
  }

  function WithEdge(reverse: map<Query, set<Query>>, key: Query, dependent: Query): map<Query, set<Query>> {
    reverse[key := (if key in reverse then reverse[key] else {}) + {dependent}]
  }

  function WithObservations(reverse: map<Query, set<Query>>, dependent: Query, os: seq<Observation>): map<Query, set<Query>> {
    if os == [] then reverse
    else WithEdge(WithObservations(reverse, dependent, os[..|os| - 1]), os[|os| - 1].key, dependent)
  }

  function Gathered(nodes: seq<Node>): map<Query, set<Query>> {
    if nodes == [] then map[]
    else WithObservations(Gathered(nodes[..|nodes| - 1]), nodes[|nodes| - 1].key, nodes[|nodes| - 1].dependencies)
  }

  lemma {:induction false} ObservationsHave(reverse: map<Query, set<Query>>, dependent: Query, os: seq<Observation>, key: Query, d: Query)
    requires NoneEmpty(reverse)
    ensures NoneEmpty(WithObservations(reverse, dependent, os))
    ensures Has(WithObservations(reverse, dependent, os), key, d) <==> Has(reverse, key, d) || (d == dependent && exists o :: o in os && o.key == key)
  {
    if os != [] {
      var front, last := os[..|os| - 1], os[|os| - 1];
      ObservationsHave(reverse, dependent, front, key, d);
      assert forall o :: o in os <==> o in front || o == last;
    }
  }

  lemma {:induction false} GatheredHas(nodes: seq<Node>, key: Query, d: Query)
    ensures NoneEmpty(Gathered(nodes))
    ensures Has(Gathered(nodes), key, d) <==> exists n, o :: n in nodes && o in n.dependencies && o.key == key && n.key == d
  {
    if nodes != [] {
      var front, last := nodes[..|nodes| - 1], nodes[|nodes| - 1];
      GatheredHas(front, key, d);
      ObservationsHave(Gathered(front), last.key, last.dependencies, key, d);
      assert forall n :: n in nodes <==> n in front || n == last;
    }
  }

  lemma GatheredIsReverse(nodes: seq<Node>)
    ensures Gathered(nodes) == ReverseOf(nodes)
  {
    var some, all := Gathered(nodes), ReverseOf(nodes);
    forall key, d ensures Has(some, key, d) <==> Has(all, key, d) {
      GatheredHas(nodes, key, d);
      ReverseIsInverse(nodes, key, d);
    }
    assert NoneEmpty(some) by {
      GatheredHas(nodes, CodecRegistry, CodecRegistry);
    }
    ReverseNoneEmpty(nodes);
    hide Gathered, ReverseOf;
    SameEdges(some, all);
  }

  lemma ReverseNoneEmpty(nodes: seq<Node>)
    ensures NoneEmpty(ReverseOf(nodes))
  {
    forall key | key in ReverseOf(nodes) ensures ReverseOf(nodes)[key] != {} {
      var n, o :| n in nodes && o in n.dependencies && o.key == key;
      assert DependsOn(n, key);
      assert n.key in ReverseOf(nodes)[key];
    }
  }

  lemma SameEdges(a: map<Query, set<Query>>, b: map<Query, set<Query>>)
    requires NoneEmpty(a) && NoneEmpty(b) && forall key, d :: Has(a, key, d) <==> Has(b, key, d)
    ensures a == b
  {
    forall key ensures key in a <==> key in b
      ensures key in a ==> a[key] == b[key]
    {
      if key in a {
        var d :| d in a[key];
        assert Has(a, key, d);
      }
      if key in b {
        var d :| d in b[key];
        assert Has(b, key, d);
      }
      if key in a && key in b {
        forall d ensures d in a[key] <==> d in b[key] {
          assert Has(a, key, d) <==> Has(b, key, d);
        }
      }
    }
    SameMap(a, b);
  }

  /** derive_reverse: the nested loops over nodes and their observations. */
  method DeriveReverse(nodes: seq<Node>) returns (reverse: map<Query, set<Query>>)
    ensures reverse == ReverseOf(nodes)
  {
    reverse := map[];
    for i := 0 to |nodes|
      invariant reverse == Gathered(nodes[..i])
    {
      ghost var before := reverse;
      var node := nodes[i];
      for j := 0 to |node.dependencies|
        invariant reverse == WithObservations(before, node.key, node.dependencies[..j])
      {
        var key := node.dependencies[j].key;
        assert node.dependencies[..j + 1][..j] == node.dependencies[..j];
        if key !in reverse {
          reverse := reverse[key := {}];
        }
        reverse := reverse[key := reverse[key] + {node.key}];
      }
      assert node.dependencies[..|node.dependencies|] == node.dependencies;
      assert nodes[..i + 1][..i] == nodes[..i];
    }
    assert nodes[..|nodes|] == nodes;
    GatheredIsReverse(nodes);
  }

  // ---- Writing ----

  ghost function EncodeReverseRow(row: (Query, set<Query>)): Expr {
    Record([Field("key", EncodeQuery(row.0)), Field("dependents", Vector(EncodeAll(Listed(row.1), EncodeQuery)))])
  }

  ghost function EncodeReverse(reverse: map<Query, set<Query>>): Expr {
    Vector(EncodeAll(Rows(reverse), (row: (Query, set<Query>)) => EncodeReverseRow(row)))
  }

  ghost function EncodeReceipts(receipts: map<string, Receipt>): Expr {
    Vector(EncodeAll(Rows(receipts), EncodeReceiptRow))
  }

  ghost function BodyRecord(p: Persisted): seq<Field> {
    [Field("schema", NumberText(p.schema)),
     Field("source-generation", NumberText(p.sourceGeneration)),
     Field("control-generation", NumberText(p.controlGeneration)),
     Field("source-identity", NumberText(p.sourceIdentity)),
     Field("control-identity", NumberText(p.controlIdentity)),
     Field("graph", Vector(EncodeAll(p.graph, EncodeNode))),
     Field("reverse", EncodeReverse(p.reverse)),
     Field("receipts", EncodeReceipts(p.receipts)),
     Field("queue", EncodeQueue(p.queue)),
     Field("next-request-id", NumberText(p.nextRequest)),
     Field("next-logical-tick", NumberText(p.nextTick)),
     Field("next-volatile", NumberText(p.nextVolatile)),
     Field("refresh-samples", EncodeSamples(p.samples)),
     Field("last-good", EncodeExprMap(p.lastGood))]
  }

  ghost function Sealed(p: Persisted, checksum: Word): Expr {
    Record(BodyRecord(p) + [Field("checksum", NumberText(checksum))])
  }

  /** encode_persisted: the body, sealed with its own identity. */
  ghost function EncodePersisted(p: Persisted, identity: Expr -> Word): Expr {
    Sealed(p, identity(Record(BodyRecord(p))))
  }

  // ---- Reading ----

  function DecodeReverseRow(e: Expr): Decoded<(Query, set<Query>)> {
    var fields :- FieldsOf(e);
    var keyField :- Required(fields, "key");
    var key :- DecodeQuery(keyField);
    var rows :- VectorField(fields, "dependents");
    var dependents :- DecodeAll(rows, DecodeQuery);
    Ok((key, set d | d in dependents))
  }

  function DecodeReverse(e: Expr): Decoded<map<Query, set<Query>>> {
    var rows :- ParseVector(e);
    DecodeRows(rows, DecodeReverseRow)
  }

  function DecodeReceipts(e: Expr): Decoded<map<string, Receipt>> {
    var rows :- ParseVector(e);
    DecodeRows(rows, DecodeReceiptRow)
  }

  predicate ChecksumEntry(entry: Entry) {
    entry.key.Sym? && entry.key.symbol.Text() == "checksum"
  }

  function WithoutChecksum(entries: seq<Entry>): seq<Entry> {
    if entries == [] then []
    else (if ChecksumEntry(entries[0]) then [] else [entries[0]]) + WithoutChecksum(entries[1..])
  }

  function Edges(nodes: seq<Node>): nat {
    if nodes == [] then 0 else |nodes[0].dependencies| + Edges(nodes[1..])
  }

  function DecodePersisted(e: Expr, identity: Expr -> Word): Decoded<Persisted> {
    var fields :- FieldsOf(e);
    var schema :- WordField(fields, "schema");
    if schema != GRAPH_SCHEMA_VERSION then Err(Incompatible)
    else
      var checksum :- WordField(fields, "checksum");
      if checksum != identity(Map(WithoutChecksum(e.entries))) then Err(Corrupt("derived snapshot checksum mismatch"))
      else
        var rows :- VectorField(fields, "graph");
        var graph :- DecodeAll(rows, DecodeNode);
        if |graph| > MAX_GRAPH_NODES || Edges(graph) > MAX_GRAPH_EDGES then Err(Corrupt("persisted graph exceeds hard snapshot bounds"))
        else PersistedOf(schema, graph, fields)
  }

  function PersistedOf(schema: Word, graph: seq<Node>, fields: map<string, Expr>): Decoded<Persisted> {
    var sourceGeneration :- WordField(fields, "source-generation");
    var controlGeneration :- WordField(fields, "control-generation");
    var sourceIdentity :- WordField(fields, "source-identity");
    var controlIdentity :- WordField(fields, "control-identity");
    var reverseField :- Required(fields, "reverse");
    var reverse :- DecodeReverse(reverseField);
    var receiptsField :- Required(fields, "receipts");
    var receipts :- DecodeReceipts(receiptsField);
    var queueField :- Required(fields, "queue");
    var queue :- DecodeQueue(queueField);
    var nextRequest :- WordField(fields, "next-request-id");
    var nextTick :- WordField(fields, "next-logical-tick");
    var nextVolatile :- WordField(fields, "next-volatile");
    var samplesField :- Required(fields, "refresh-samples");
    var samples :- DecodeSamples(samplesField);
    var lastGoodField :- Required(fields, "last-good");
    var lastGood :- DecodeExprMap(lastGoodField);
    Ok(Persisted(schema, sourceGeneration, controlGeneration, sourceIdentity, controlIdentity, graph, reverse, receipts, queue,
                 nextRequest, nextTick, nextVolatile, samples, lastGood))
  }

  // ---- The round trip ----

  lemma ReverseRowBack(key: Query, dependents: set<Query>)
    ensures DecodeReverseRow(EncodeReverseRow((key, dependents))) == Ok((key, dependents))
  {
    var list := Listed(dependents);
    var fs := [Field("key", EncodeQuery(key)), Field("dependents", Vector(EncodeAll(list, EncodeQuery)))];
    FieldsBack(fs, [OutlineOf("key"), OutlineOf("dependents")]);
    hide FieldsOf, Record, Required, EncodeAll, DecodeAll, DecodeQuery, EncodeQuery, Listed;
    assert fs[0].name == "key" && fs[1].name == "dependents";
    QueryBack(key);
    forall q | q in list ensures DecodeQuery(EncodeQuery(q)) == Ok(q) {
      QueryBack(q);
    }
    AllBack(list, EncodeQuery, DecodeQuery);
    assert (set d | d in list) == dependents;
  }

  lemma ReverseBack(reverse: map<Query, set<Query>>)
    ensures DecodeReverse(EncodeReverse(reverse)) == Ok(reverse)
  {
    forall k | k in reverse ensures DecodeReverseRow(EncodeReverseRow((k, reverse[k]))) == Ok((k, reverse[k])) {
      ReverseRowBack(k, reverse[k]);
    }
    hide DecodeReverseRow, EncodeReverseRow;
    RowsBack(reverse, (row: (Query, set<Query>)) => EncodeReverseRow(row), DecodeReverseRow);
  }

  const BODY_OUTLINES := [
    Outline(6, 's', 'a'), Outline(17, 's', 'n'), Outline(18, 'c', 'n'), Outline(15, 's', 'y'), Outline(16, 'c', 'y'),
    Outline(5, 'g', 'h'), Outline(7, 'r', 'e'), Outline(8, 'r', 's'), Outline(5, 'q', 'e'), Outline(15, 'n', 'd'),
    Outline(17, 'n', 'k'), Outline(13, 'n', 'e'), Outline(15, 'r', 's'), Outline(9, 'l', 'd'), Outline(8, 'c', 'm')
  ]

  lemma BodyOutlines(p: Persisted, checksum: Word)
    ensures var fs := BodyRecord(p) + [Field("checksum", NumberText(checksum))];
            |fs| == |BODY_OUTLINES| && forall i :: 0 <= i < |BODY_OUTLINES| ==> OutlineOf(fs[i].name) == BODY_OUTLINES[i]
  {
    hide EncodeAll, EncodeReverse, EncodeReceipts, EncodeQueue, EncodeSamples, EncodeExprMap, NumberText;
    var fs := BodyRecord(p) + [Field("checksum", NumberText(checksum))];
    assert OutlineOf(fs[0].name) == Outline(6, 's', 'a');
    assert OutlineOf(fs[1].name) == Outline(17, 's', 'n');
    assert OutlineOf(fs[2].name) == Outline(18, 'c', 'n');
    assert OutlineOf(fs[3].name) == Outline(15, 's', 'y');
    assert OutlineOf(fs[4].name) == Outline(16, 'c', 'y');
    assert OutlineOf(fs[5].name) == Outline(5, 'g', 'h');
    assert OutlineOf(fs[6].name) == Outline(7, 'r', 'e');
    assert OutlineOf(fs[7].name) == Outline(8, 'r', 's');
    assert OutlineOf(fs[8].name) == Outline(5, 'q', 'e');
    assert OutlineOf(fs[9].name) == Outline(15, 'n', 'd');
    assert OutlineOf(fs[10].name) == Outline(17, 'n', 'k');
    assert OutlineOf(fs[11].name) == Outline(13, 'n', 'e');
    assert OutlineOf(fs[12].name) == Outline(15, 'r', 's');
    assert OutlineOf(fs[13].name) == Outline(9, 'l', 'd');
    assert OutlineOf(fs[14].name) == Outline(8, 'c', 'm');
  }

  lemma FieldsDistinct(p: Persisted, checksum: Word)
    ensures DistinctNames(BodyRecord(p) + [Field("checksum", NumberText(checksum))])
  {
    BodyOutlines(p, checksum);
    hide BodyRecord, OutlineOf, NumberText;
    OutlinesDiffer(BodyRecord(p) + [Field("checksum", NumberText(checksum))], BODY_OUTLINES);
  }

  // Each group of the snapshot's fields reads back.

  lemma BodyIdentities(p: Persisted, checksum: Word, m: map<string, Expr>)
    requires FieldsOf(Sealed(p, checksum)) == Ok(m)
    ensures WordField(m, "schema") == Ok(p.schema)
    ensures WordField(m, "source-generation") == Ok(p.sourceGeneration)
    ensures WordField(m, "control-generation") == Ok(p.controlGeneration)
    ensures WordField(m, "source-identity") == Ok(p.sourceIdentity)
    ensures WordField(m, "control-identity") == Ok(p.controlIdentity)
  {
    FieldsDistinct(p, checksum);
    var fs := BodyRecord(p) + [Field("checksum", NumberText(checksum))];
    hide FieldsOf, Record, DistinctNames, EncodeAll, EncodeReverse, EncodeReceipts, EncodeQueue, EncodeSamples, EncodeExprMap, ParseWord, NumberText;
    FieldIs(fs, 0, "schema", NumberText(p.schema), m);
    FieldIs(fs, 1, "source-generation", NumberText(p.sourceGeneration), m);
    FieldIs(fs, 2, "control-generation", NumberText(p.controlGeneration), m);
    FieldIs(fs, 3, "source-identity", NumberText(p.sourceIdentity), m);
    FieldIs(fs, 4, "control-identity", NumberText(p.controlIdentity), m);
    NumberBack(p.schema);
    NumberBack(p.sourceGeneration);
    NumberBack(p.controlGeneration);
    NumberBack(p.sourceIdentity);
    NumberBack(p.controlIdentity);
  }

  lemma BodyGraph(p: Persisted, checksum: Word, m: map<string, Expr>)
    requires FieldsOf(Sealed(p, checksum)) == Ok(m)
    ensures VectorField(m, "graph") == Ok(EncodeAll(p.graph, EncodeNode))
    ensures Required(m, "reverse") == Ok(EncodeReverse(p.reverse))
    ensures Required(m, "receipts") == Ok(EncodeReceipts(p.receipts))
    ensures Required(m, "queue") == Ok(EncodeQueue(p.queue))
  {
    FieldsDistinct(p, checksum);
    var fs := BodyRecord(p) + [Field("checksum", NumberText(checksum))];
    hide FieldsOf, Record, DistinctNames, EncodeAll, EncodeReverse, EncodeReceipts, EncodeQueue, EncodeSamples, EncodeExprMap, ParseWord, NumberText;
    FieldIs(fs, 5, "graph", Vector(EncodeAll(p.graph, EncodeNode)), m);
    FieldIs(fs, 6, "reverse", EncodeReverse(p.reverse), m);
    FieldIs(fs, 7, "receipts", EncodeReceipts(p.receipts), m);
    FieldIs(fs, 8, "queue", EncodeQueue(p.queue), m);
  }

  lemma BodyCounters(p: Persisted, checksum: Word, m: map<string, Expr>)
    requires FieldsOf(Sealed(p, checksum)) == Ok(m)
    ensures WordField(m, "next-request-id") == Ok(p.nextRequest)
    ensures WordField(m, "next-logical-tick") == Ok(p.nextTick)
    ensures WordField(m, "next-volatile") == Ok(p.nextVolatile)
    ensures Required(m, "refresh-samples") == Ok(EncodeSamples(p.samples))
    ensures Required(m, "last-good") == Ok(EncodeExprMap(p.lastGood))
  {
    FieldsDistinct(p, checksum);
    var fs := BodyRecord(p) + [Field("checksum", NumberText(checksum))];
    hide FieldsOf, Record, DistinctNames, EncodeAll, EncodeReverse, EncodeReceipts, EncodeQueue, EncodeSamples, EncodeExprMap, ParseWord, NumberText;
    FieldIs(fs, 9, "next-request-id", NumberText(p.nextRequest), m);
    FieldIs(fs, 10, "next-logical-tick", NumberText(p.nextTick), m);
    FieldIs(fs, 11, "next-volatile", NumberText(p.nextVolatile), m);
    FieldIs(fs, 12, "refresh-samples", EncodeSamples(p.samples), m);
    FieldIs(fs, 13, "last-good", EncodeExprMap(p.lastGood), m);
    NumberBack(p.nextRequest);
    NumberBack(p.nextTick);
    NumberBack(p.nextVolatile);
  }

  lemma {:induction false} ChecksumLast(entries: seq<Entry>, last: Entry)
    requires ChecksumEntry(last) && forall i :: 0 <= i < |entries| ==> !ChecksumEntry(entries[i])
    ensures WithoutChecksum(entries + [last]) == entries
  {
    if entries != [] {
      ChecksumLast(entries[1..], last);
      assert (entries + [last])[0] == entries[0] && (entries + [last])[1..] == entries[1..] + [last];
    }
  }

  /** Taking the checksum out of a sealed snapshot leaves the body it was made of. */
  lemma BodyOfSealed(p: Persisted, checksum: Word)
    ensures Sealed(p, checksum).Map? && Map(WithoutChecksum(Sealed(p, checksum).entries)) == Record(BodyRecord(p))
    ensures FieldsOf(Sealed(p, checksum)).Ok? && WordField(FieldsOf(Sealed(p, checksum)).value, "checksum") == Ok(checksum)
  {
    FieldsDistinct(p, checksum);
    var body := BodyRecord(p);
    var last := Field("checksum", NumberText(checksum));
    var fs := body + [last];
    RecordBack(fs);
    NumberBack(checksum);
    FieldIs(fs, |body|, "checksum", NumberText(checksum), FieldsOf(Record(fs)).value);
    hide BodyRecord, NumberText, FieldsOf;
    var entries := Record(body).entries;
    forall i | 0 <= i < |entries| ensures !ChecksumEntry(entries[i]) {
      assert fs[i].name != fs[|body|].name;
    }
    assert Record(fs).entries == entries + [Entry(Sym(Symbol(None, "checksum")), last.value)];
    ChecksumLast(entries, Entry(Sym(Symbol(None, "checksum")), last.value));
  }

  /** A snapshot as the calculator builds it: of the present schema, with the
      observation kinds the evaluator emits and numbers of machine width. */
  predicate Written(p: Persisted) {
    && p.schema == GRAPH_SCHEMA_VERSION
    && (forall n, o | n in p.graph && o in n.dependencies :: Emitted(o))
    && (forall c | c in p.receipts :: p.receipts[c].cell == c && ReceiptHeld(p.receipts[c]))
    && QueueHeld(p.queue)
  }

  /** A graph that can be read again: within the hard bounds, and every map in a
      value keyed by symbols. */
  predicate Readable(graph: seq<Node>) {
    |graph| <= MAX_GRAPH_NODES && Edges(graph) <= MAX_GRAPH_EDGES && forall n | n in graph :: MemoHeld(n.memo)
  }

  /** What a snapshot must be for its persisted form to hold it. */
  predicate PersistedHeld(p: Persisted) {
    Written(p) && Readable(p.graph)
  }

  lemma NodesHeld(p: Persisted)
    requires Written(p) && Readable(p.graph)
    ensures forall n | n in p.graph :: NodeHeld(n)
  {
  }

  function GraphRestored(nodes: seq<Node>): (restored: seq<Node>)
    requires forall n | n in nodes :: NodeHeld(n)
    ensures |restored| == |nodes| && forall i :: 0 <= i < |nodes| ==> restored[i] == NodeRestored(nodes[i])
  {
    seq(|nodes|, i requires 0 <= i < |nodes| => NodeRestored(nodes[i]))
  }

  lemma {:induction false} GraphBack(nodes: seq<Node>)
    requires forall n | n in nodes :: NodeHeld(n)
    ensures DecodeAll(EncodeAll(nodes, EncodeNode), DecodeNode) == Ok(GraphRestored(nodes))
  {
    hide EncodeNode, DecodeNode, NodeRestored, NodeHeld;
    if nodes != [] {
      var front, last := nodes[..|nodes| - 1], nodes[|nodes| - 1];
      GraphBack(front);
      NodeBack(last);
      assert EncodeAll(nodes, EncodeNode)[..|nodes| - 1] == EncodeAll(front, EncodeNode);
      assert GraphRestored(nodes) == GraphRestored(front) + [NodeRestored(last)];
    }
  }

  lemma {:induction false} EdgesRestored(nodes: seq<Node>)
    requires forall n | n in nodes :: NodeHeld(n)
    ensures Edges(GraphRestored(nodes)) == Edges(nodes)
  {
    if nodes != [] {
      EdgesRestored(nodes[1..]);
      assert GraphRestored(nodes)[1..] == GraphRestored(nodes[1..]);
      hide MemoRestored;
    }
  }

  /** Restoring memos leaves the reverse edges what they were. */
  lemma ReverseRestored(nodes: seq<Node>)
    requires forall n | n in nodes :: NodeHeld(n)
    ensures ReverseOf(GraphRestored(nodes)) == ReverseOf(nodes)
  {
    hide MemoRestored, NodeHeld, ReverseOf;
    SameGathered(nodes, GraphRestored(nodes));
    GatheredIsReverse(nodes);
    GatheredIsReverse(GraphRestored(nodes));
  }

  lemma {:induction false} SameGathered(a: seq<Node>, b: seq<Node>)
    requires |a| == |b| && forall i :: 0 <= i < |a| ==> a[i].key == b[i].key && a[i].dependencies == b[i].dependencies
    ensures Gathered(a) == Gathered(b)
  {
    if a != [] {
      SameGathered(a[..|a| - 1], b[..|b| - 1]);
    }
  }

  /** One node that cannot be read makes the whole graph unreadable. */
  lemma {:induction false} GraphUnreadable(nodes: seq<Node>, i: nat)
    requires forall n, o | n in nodes && o in n.dependencies :: Emitted(o)
    requires i < |nodes| && !MemoHeld(nodes[i].memo)
    ensures Corrupted(DecodeAll(EncodeAll(nodes, EncodeNode), DecodeNode))
  {
    hide EncodeNode, DecodeNode, MemoHeld, Emitted;
    var front, last := nodes[..|nodes| - 1], nodes[|nodes| - 1];
    assert EncodeAll(nodes, EncodeNode)[..|nodes| - 1] == EncodeAll(front, EncodeNode);
    if k :| 0 <= k < |front| && !MemoHeld(front[k].memo) {
      GraphUnreadable(front, k);
    } else {
      FrontBack(front);
      NodeUnreadable(last);
    }
  }

  lemma FrontBack(nodes: seq<Node>)
    requires forall n, o | n in nodes && o in n.dependencies :: Emitted(o)
    requires forall n | n in nodes :: MemoHeld(n.memo)
    ensures DecodeAll(EncodeAll(nodes, EncodeNode), DecodeNode).Ok?
  {
    hide EncodeAll, DecodeAll, MemoHeld, Emitted;
    GraphBack(nodes);
  }

  /** What is read of a written snapshot hangs on what is read of its graph. */
  lemma SealedDecodes(p: Persisted, identity: Expr -> Word)
    requires Written(p)
    ensures var graph := DecodeAll(EncodeAll(p.graph, EncodeNode), DecodeNode);
            DecodePersisted(EncodePersisted(p, identity), identity)
            == if graph.Err? then Err(graph.error)
               else if |graph.value| > MAX_GRAPH_NODES || Edges(graph.value) > MAX_GRAPH_EDGES
               then Err(Corrupt("persisted graph exceeds hard snapshot bounds"))
               else Ok(p.(graph := graph.value))
  {
    var checksum := identity(Record(BodyRecord(p)));
    BodyOfSealed(p, checksum);
    var m := FieldsOf(Sealed(p, checksum)).value;
    BodyIdentities(p, checksum, m);
    BodyGraph(p, checksum, m);
    hide Sealed, BodyRecord, FieldsOf, Record, WithoutChecksum, WordField, VectorField, Required, EncodeAll, DecodeAll, PersistedOf, Edges;
    var graph := DecodeAll(EncodeAll(p.graph, EncodeNode), DecodeNode);
    if graph.Ok? {
      RestBack(p, checksum, m, graph.value);
    }
  }

  /** A written snapshot is read if and only if its graph is readable; then it comes
      back as it was, except that nodes whose memo cannot be reused are dirty. */
  lemma PersistedBack(p: Persisted, identity: Expr -> Word)
    requires Written(p)
    ensures var back := DecodePersisted(EncodePersisted(p, identity), identity);
            if Readable(p.graph) then back == Ok(p.(graph := GraphRestored(p.graph))) else Corrupted(back)
  {
    SealedDecodes(p, identity);
    hide EncodePersisted, DecodePersisted, EncodeAll, DecodeAll, GraphRestored, MemoHeld, Emitted;
    if i :| 0 <= i < |p.graph| && !MemoHeld(p.graph[i].memo) {
      GraphUnreadable(p.graph, i);
      assert p.graph[i] in p.graph;
    } else {
      GraphBack(p.graph);
      EdgesRestored(p.graph);
    }
  }

  lemma RestBack(p: Persisted, checksum: Word, m: map<string, Expr>, graph: seq<Node>)
    requires Written(p) && FieldsOf(Sealed(p, checksum)) == Ok(m)
    ensures PersistedOf(p.schema, graph, m) == Ok(p.(graph := graph))
  {
    BodyIdentities(p, checksum, m);
    BodyGraph(p, checksum, m);
    BodyCounters(p, checksum, m);
    hide Sealed, FieldsOf, WordField, VectorField, Required, EncodeAll, EncodeReverse, DecodeReverse, EncodeReceipts, DecodeReceipts,
         EncodeQueue, DecodeQueue, EncodeSamples, DecodeSamples, EncodeExprMap, DecodeExprMap, Emitted, ReceiptHeld, QueueHeld;
    ReverseBack(p.reverse);
    ReceiptMapBack(p.receipts);
    QueueBack(p.queue);
    SamplesBack(p.samples);
    ExprMapBack(p.lastGood);
  }

  lemma ReceiptMapBack(receipts: map<string, Receipt>)
    requires forall c | c in receipts :: receipts[c].cell == c && ReceiptHeld(receipts[c])
    ensures DecodeReceipts(EncodeReceipts(receipts)) == Ok(receipts)
  {
    ReceiptsBack(receipts);
  }

  // ---- Restarting ----

  /** Generations and identities of the authored state. */
  datatype Live = Live(sourceGeneration: Word, controlGeneration: Word, sourceIdentity: Word, controlIdentity: Word)

  datatype Disposition = Rehydrated | RebuiltMissing | RebuiltIncompatible | RebuiltCorrupt | RebuiltGenerationMismatch

  function LiveOf(p: Persisted): Live {
    Live(p.sourceGeneration, p.controlGeneration, p.sourceIdentity, p.controlIdentity)
  }

  /** How restore_derived ends; whether the engine takes the graph is its own affair. */
  ghost function DispositionOf(encoded: Option<Expr>, identity: Expr -> Word, live: Live, engineAccepts: bool): Disposition {
    if encoded.None? then RebuiltMissing
    else
      match DecodePersisted(encoded.value, identity)
      case Err(Incompatible) => RebuiltIncompatible
      case Err(Corrupt(_)) => RebuiltCorrupt
      case Ok(p) =>
        if LiveOf(p) != live then RebuiltGenerationMismatch
        else if p.reverse != ReverseOf(p.graph) || !engineAccepts || !Accepted(p.queue.entries) then RebuiltCorrupt
        else Rehydrated
  }

  /** A written snapshot whose reverse edges are right is taken back exactly if its
      graph is readable, its queue acceptable, the engine takes the graph, and the
      authored state has the generations and identities it was written under. */
  lemma WrittenIsTaken(p: Persisted, identity: Expr -> Word, live: Live, engineAccepts: bool)
    requires Written(p) && p.reverse == ReverseOf(p.graph)
    ensures DispositionOf(Some(EncodePersisted(p, identity)), identity, live, engineAccepts)
            == if !Readable(p.graph) then RebuiltCorrupt
               else if live != LiveOf(p) then RebuiltGenerationMismatch
               else if !engineAccepts || !Accepted(p.queue.entries) then RebuiltCorrupt else Rehydrated
  {
    hide EncodePersisted, DecodePersisted, ReverseOf, GraphRestored, Accepted, Loaded, NodeHeld, Written, Readable;
    PersistedBack(p, identity);
    if Readable(p.graph) {
      NodesHeld(p);
      ReverseRestored(p.graph);
    }
  }

  /** A snapshot whose reverse edges are not the inverse of its dependencies is
      never taken. */
  lemma WrongReverseIsRefused(p: Persisted, identity: Expr -> Word, live: Live, engineAccepts: bool)
    requires Written(p) && p.reverse != ReverseOf(p.graph)
    ensures DispositionOf(Some(EncodePersisted(p, identity)), identity, live, engineAccepts) != Rehydrated
  {
    hide EncodePersisted, DecodePersisted, ReverseOf, GraphRestored, Accepted, Loaded, NodeHeld, Written, Readable;
    PersistedBack(p, identity);
    if Readable(p.graph) {
      NodesHeld(p);
      ReverseRestored(p.graph);
    }
  }

  /** A node of a taken snapshot is clean only if it was written clean and its memo
      may be reused: unknown and volatile values are computed again. */
  lemma CleanNodesAreReusable(p: Persisted, identity: Expr -> Word, i: nat)
    requires PersistedHeld(p) && i < |p.graph|
    ensures var back := DecodePersisted(EncodePersisted(p, identity), identity);
            && back.Ok? && i < |back.value.graph|
            && (!back.value.graph[i].dirty <==> !p.graph[i].dirty && Reusable(p.graph[i].memo))
            && back.value.graph[i].key == p.graph[i].key && back.value.graph[i].dependencies == p.graph[i].dependencies
  {
    PersistedBack(p, identity);
    hide EncodePersisted, DecodePersisted, MemoRestored, MemoHeld, Reusable;
  }

  /** What the results beside the graph become. */
  datatype Results = Results(current: map<string, Result<Value, Failure>>, failed: set<string>, volatile: set<string>)

  function Known(results: Results, n: Node): Results {
    if !n.key.Cell? || n.memo.None? then results
    else
      match n.memo.value
      case Computed(value, volatile) =>
        results.(current := results.current[n.key.path := Ok(value)],
                 volatile := if volatile then results.volatile + {n.key.path} else results.volatile)
      case Failing(failure) =>
        results.(current := results.current[n.key.path := Err(failure)], failed := results.failed + {n.key.path})
  }

  function KnownFrom(nodes: seq<Node>): Results {
    if nodes == [] then Results(map[], {}, {}) else Known(KnownFrom(nodes[..|nodes| - 1]), nodes[|nodes| - 1])
  }

  /** current_from_graph. */
  method CurrentFromGraph(nodes: seq<Node>) returns (results: Results)
    ensures results == KnownFrom(nodes)
  {
    results := Results(map[], {}, {});
    for i := 0 to |nodes|
      invariant results == KnownFrom(nodes[..i])
    {
      assert nodes[..i + 1][..i] == nodes[..i];
      results := Known(results, nodes[i]);
    }
    assert nodes[..|nodes|] == nodes;
  }

  /** With one node per key the current results are exactly the cells' memos, and
      the failed and volatile sets say which kind each is. */
  lemma {:induction false} CurrentIsMemo(nodes: seq<Node>, n: Node)
    requires forall i, j :: 0 <= i < j < |nodes| ==> nodes[i].key != nodes[j].key
    requires n in nodes && n.key.Cell?
    ensures var r := KnownFrom(nodes);
            && (n.key.path in r.current <==> n.memo.Some?)
            && (n.memo.Some? ==> r.current[n.key.path] == match n.memo.value case Computed(v, _) => Ok(v) case Failing(f) => Err(f))
            && (n.key.path in r.failed <==> n.memo.Some? && n.memo.value.Failing?)
            && (n.key.path in r.volatile <==> n.memo.Some? && n.memo.value.Computed? && n.memo.value.volatile)
  {
    var front, last := nodes[..|nodes| - 1], nodes[|nodes| - 1];
    if n == last {
      NothingKnown(front, n.key.path);
    } else {
      assert n in front;
      CurrentIsMemo(front, n);
      var i :| 0 <= i < |front| && front[i] == n;
      assert last.key != n.key;
    }
  }

  lemma {:induction false} NothingKnown(nodes: seq<Node>, path: string)
    requires forall n :: n in nodes ==> n.key != Cell(path)
    ensures var r := KnownFrom(nodes); path !in r.current && path !in r.failed && path !in r.volatile
  {
    if nodes != [] {
      NothingKnown(nodes[..|nodes| - 1], path);
    }
  }

  // ---- The derived state, restored in place ----

  class Derived {
    const scheduler: Scheduler
    var results: Results
    var receipts: map<string, Receipt>
    var nextTick: nat
    var nextVolatile: nat
    var samples: map<string, Sample>
    var lastGood: map<string, Value>
    var restoredContinuations: set<nat>

    constructor (scheduler: Scheduler)
      ensures this.scheduler == scheduler
    {
      this.scheduler := scheduler;
      results, receipts, nextTick, nextVolatile := Results(map[], {}, {}), map[], 1, 1;
      samples, lastGood, restoredContinuations := map[], map[], {};
    }

    /** What the calculator keeps of itself: receipts under their own cells, counters
        from one and of machine width, queued cells absolute. */
    ghost predicate Sound()
      reads this, scheduler
    {
      && scheduler.Valid() && 1 <= nextTick <= MAX_U64 && 1 <= nextVolatile <= MAX_U64
      && scheduler.generation <= MAX_U64 && scheduler.nextSequence <= MAX_U64 && scheduler.nextRequest <= MAX_U64
      && (forall c :: c in receipts ==> receipts[c].cell == c && ReceiptHeld(receipts[c]))
      && (forall c :: c in scheduler.queue ==> c != "" && c[0] == '/' && QueuedHeld(scheduler.queue[c]))
    }

    /** The snapshot tells the derived state, over a graph and an authored state. */
    ghost predicate Told(graph: seq<Node>, live: Live, p: Persisted)
      reads this, scheduler
    {
      && p.schema == GRAPH_SCHEMA_VERSION && LiveOf(p) == live && p.graph == graph && p.reverse == ReverseOf(graph)
      && p.receipts == receipts && p.nextTick == nextTick && p.nextVolatile == nextVolatile && p.samples == samples
      && p.lastGood == (map c | c in lastGood :: AsExpr(lastGood[c]))
      && p.queue.generation == scheduler.generation && p.queue.nextSequence == scheduler.nextSequence
      && Lists(p.queue.entries, scheduler.queue) && p.nextRequest == scheduler.nextRequest
    }

    /** persist_derived, as far as building what is stored. */
    method PersistDerived(graph: seq<Node>, live: Live) returns (p: Persisted)
      requires Sound() && forall n, o | n in graph && o in n.dependencies :: Emitted(o)
      ensures Told(graph, live, p)
      ensures Written(p) && Accepted(p.queue.entries)
    {
      var reverse := DeriveReverse(graph);
      var queue := scheduler.Snapshot();
      p := Persisted(GRAPH_SCHEMA_VERSION, live.sourceGeneration, live.controlGeneration, live.sourceIdentity, live.controlIdentity,
                     graph, reverse, receipts, queue, scheduler.nextRequest, nextTick, nextVolatile, samples,
                     map c | c in lastGood :: AsExpr(lastGood[c]));
      ListedIsAccepted(queue.entries, scheduler.queue);
      hide AsExpr, ReverseOf, Emitted, ReceiptHeld, QueuedHeld, Lists, Accepted;
    }

    /** What restoring such a snapshot reads. */
    lemma Retold(p: Persisted, identity: Expr -> Word, live: Live)
      requires Sound() && Told(p.graph, live, p) && Written(p) && Readable(p.graph)
      ensures DispositionOf(Some(EncodePersisted(p, identity)), identity, live, true) == Rehydrated
      ensures DecodePersisted(EncodePersisted(p, identity), identity) == Ok(p.(graph := GraphRestored(p.graph)))
      ensures p.receipts == receipts && AtLeastOne(p.nextTick) == nextTick && AtLeastOne(p.nextVolatile) == nextVolatile && p.samples == samples
      ensures State(Loaded(p.queue.entries), AtLeastOne(p.queue.generation)) == scheduler.Now()
      ensures AtLeastOne(p.queue.nextSequence) == scheduler.nextSequence && p.nextRequest == scheduler.nextRequest
      ensures forall later: nat :: p.nextRequest <= later ==> Ordered(Loaded(p.queue.entries), scheduler.nextSequence, later)
      ensures forall c :: c in LastGoodOf(p.lastGood) <==> c in lastGood && SymbolKeyed(AsExpr(lastGood[c]))
      ensures forall c :: c in lastGood && DataValue(lastGood[c]) ==> c in LastGoodOf(p.lastGood) && LastGoodOf(p.lastGood)[c] == lastGood[c]
    {
      hide EncodePersisted, DecodePersisted, DispositionOf, GraphRestored, ReverseOf, Written, Readable, AsExpr, Restore, SymbolKeyed, DataValue;
      ListedIsAccepted(p.queue.entries, scheduler.queue);
      QueueReloaded(p.queue.entries, scheduler.queue, scheduler.nextSequence, scheduler.nextRequest);
      LastGoodBack(lastGood, p.lastGood);
      hide Lists, Accepted, Loaded, LastGoodOf, ReceiptHeld, QueuedHeld, Ordered;
      WrittenIsTaken(p, identity, live, true);
      PersistedBack(p, identity);
    }

    /** A restart over the authored state a readable snapshot was written under has
        the derived state it was written from. */
    method Restart(ghost before: Derived, ghost p: Persisted, encoded: Expr, identity: Expr -> Word, live: Live,
                   cells: seq<string>, policy: string -> AutoPolicy, now: nat, epochs: map<string, Word>)
      returns (d: Disposition)
      requires scheduler.Valid() && Unrepeated(cells) && before != this && before.scheduler != scheduler
      requires before.Sound() && before.Told(p.graph, live, p) && Written(p) && Readable(p.graph)
      requires encoded == EncodePersisted(p, identity)
      modifies this, scheduler
      ensures d.Rehydrated? && scheduler.Valid()
      ensures scheduler.Now() == before.scheduler.Now() && scheduler.nextSequence == before.scheduler.nextSequence
      ensures scheduler.nextRequest >= before.scheduler.nextRequest
      ensures receipts == before.receipts && nextTick == before.nextTick && nextVolatile == before.nextVolatile && samples == before.samples
      ensures results == KnownFrom(GraphRestored(p.graph))
      ensures forall c :: c in lastGood <==> c in before.lastGood && SymbolKeyed(AsExpr(before.lastGood[c]))
      ensures forall c :: c in before.lastGood && DataValue(before.lastGood[c]) ==> c in lastGood && lastGood[c] == before.lastGood[c]
    {
      before.Retold(p, identity, live);
      hide EncodePersisted, DecodePersisted, DispositionOf, Written, Readable, GraphRestored, KnownFrom, ReverseOf, Lists, Accepted, Loaded,
           LastGoodOf, AsExpr, SymbolKeyed, DataValue, ReceiptHeld, QueuedHeld, Ordered, Eligible, Tokens, Sound, Told;
      d := RestoreDerived(Some(encoded), identity, live, true, cells, policy, now, epochs);
    }

    /** restore_derived.  Either everything derived comes from the snapshot, or all of
        it is rebuilt: nothing is mixed. */
    method RestoreDerived(encoded: Option<Expr>, identity: Expr -> Word, live: Live, engineAccepts: bool,
                          cells: seq<string>, policy: string -> AutoPolicy, now: nat, epochs: map<string, Word>)
      returns (d: Disposition)
      requires scheduler.Valid() && Unrepeated(cells)
      modifies this, scheduler
      ensures d == DispositionOf(encoded, identity, live, engineAccepts)
      ensures d.Rehydrated? ==>
                var p := DecodePersisted(encoded.value, identity).value;
                && results == KnownFrom(p.graph) && receipts == p.receipts
                && nextTick == AtLeastOne(p.nextTick) && nextVolatile == AtLeastOne(p.nextVolatile) && samples == p.samples
                && lastGood == LastGoodOf(p.lastGood)
                && (forall t :: t in restoredContinuations <==> exists e :: e in p.queue.entries && e.continuation == Some(t))
                && scheduler.queue == Loaded(p.queue.entries) && scheduler.generation == AtLeastOne(p.queue.generation)
                && scheduler.nextSequence == AtLeastOne(p.queue.nextSequence) && scheduler.nextRequest >= p.nextRequest
      ensures !d.Rehydrated? ==>
                && results == Results(map[], {}, {}) && receipts == map[] && nextTick == 1 && nextVolatile == 1
                && lastGood == map[] && restoredContinuations == {} && samples == Unsampled(epochs)
                && scheduler.Valid() && (forall c :: c in scheduler.queue <==> c in cells && policy(c).automatic)
                && (forall c :: c in scheduler.queue ==> NewlyQueued(scheduler.queue[c], policy(c), now))
                && scheduler.generation == if scheduler.queue == map[] then 1 else 2
    {
      d := Decide(encoded, identity, live, engineAccepts);
      if d.Rehydrated? {
        TokensMean(DecodePersisted(encoded.value, identity).value.queue.entries);
      }
      hide DecodePersisted, DispositionOf, KnownFrom, Tokens, LastGoodOf, Loaded, Unsampled, NewlyQueued;
      if d.Rehydrated? {
        Rehydrate(DecodePersisted(encoded.value, identity).value);
      } else {
        Rebuild(cells, policy, now, epochs);
      }
    }

    /** Every mount starts from its epoch with nothing listed or stamped. */
    static function Unsampled(epochs: map<string, Word>): map<string, Sample> {
      map m | m in epochs :: Sample(epochs[m], map[], map[])
    }

    static predicate NewlyQueued(e: Queued, p: AutoPolicy, now: nat) {
      e.bypasses == 0 && e.continuation == None && e.priority == p.priority && e.readyAt == now + p.debounce
    }

    method Rehydrate(p: Persisted)
      requires Accepted(p.queue.entries)
      modifies this, scheduler
      ensures results == KnownFrom(p.graph) && receipts == p.receipts
      ensures nextTick == AtLeastOne(p.nextTick) && nextVolatile == AtLeastOne(p.nextVolatile) && samples == p.samples
      ensures lastGood == LastGoodOf(p.lastGood) && restoredContinuations == Tokens(p.queue.entries)
      ensures scheduler.queue == Loaded(p.queue.entries) && scheduler.generation == AtLeastOne(p.queue.generation)
      ensures scheduler.nextSequence == AtLeastOne(p.queue.nextSequence) && scheduler.nextRequest >= p.nextRequest
    {
      hide Loaded, KnownFrom, Tokens, LastGoodOf;
      var restored := scheduler.Restore(p.queue);
      results := CurrentFromGraph(p.graph);
      receipts, nextTick, nextVolatile, samples := p.receipts, AtLeastOne(p.nextTick), AtLeastOne(p.nextVolatile), p.samples;
      lastGood := LastGoodOf(p.lastGood);
      restoredContinuations := Tokens(p.queue.entries);
      scheduler.nextRequest := Later(scheduler.nextRequest, p.nextRequest);
    }

    method Decide(encoded: Option<Expr>, identity: Expr -> Word, live: Live, engineAccepts: bool) returns (d: Disposition)
      ensures d == DispositionOf(encoded, identity, live, engineAccepts)
      ensures d.Rehydrated? ==> encoded.Some? && DecodePersisted(encoded.value, identity).Ok?
                                && Accepted(DecodePersisted(encoded.value, identity).value.queue.entries)
    {
      hide DecodePersisted, ReverseOf, Accepted, Loaded;
      if encoded.None? {
        return RebuiltMissing;
      }
      match DecodePersisted(encoded.value, identity)
      case Err(Incompatible) =>
        return RebuiltIncompatible;
      case Err(Corrupt(_)) =>
        return RebuiltCorrupt;
      case Ok(p) =>
        if LiveOf(p) != live {
          return RebuiltGenerationMismatch;
        }
        var reverse := DeriveReverse(p.graph);
        if p.reverse != reverse || !engineAccepts {
          return RebuiltCorrupt;
        }
        var loaded := Load(p.queue.entries, 1);
        return if loaded.Ok? then Rehydrated else RebuiltCorrupt;
    }

    /** rebuild_derived_state: every cell is dirty again. */
    method Rebuild(cells: seq<string>, policy: string -> AutoPolicy, now: nat, epochs: map<string, Word>)
      requires Unrepeated(cells)
      modifies this, scheduler
      ensures results == Results(map[], {}, {}) && receipts == map[] && nextTick == 1 && nextVolatile == 1
      ensures lastGood == map[] && restoredContinuations == {} && samples == Unsampled(epochs)
      ensures scheduler.Valid() && forall c :: c in scheduler.queue <==> c in cells && policy(c).automatic
      ensures forall c :: c in scheduler.queue ==> NewlyQueued(scheduler.queue[c], policy(c), now)
      ensures scheduler.generation == if scheduler.queue == map[] then 1 else 2
    {
      hide Ordered, Refreshed, Eligible, Step;
      results, receipts, nextTick, nextVolatile := Results(map[], {}, {}), map[], 1, 1;
      lastGood, restoredContinuations := map[], {};
      samples := Unsampled(epochs);
      scheduler.Reset();
      scheduler.ScheduleDirty(cells, policy, now);
    }
  }

  lemma ListedIsAccepted(entries: seq<Queued>, q: Queue)
    requires Lists(entries, q) && forall c :: c in q ==> c != "" && c[0] == '/' && QueuedHeld(q[c])
    ensures Accepted(entries) && forall e :: e in entries ==> QueuedHeld(e)
  {
    forall i, j | 0 <= i < j < |entries| ensures entries[i].cell != entries[j].cell {
      LexTotal(entries[i].cell, entries[j].cell);
    }
  }

  lemma QueueReloaded(entries: seq<Queued>, q: Queue, sequence: nat, request: nat)
    requires Lists(entries, q) && Ordered(q, sequence, request)
    ensures Loaded(entries) == q && forall later: nat :: request <= later ==> Ordered(Loaded(entries), sequence, later)
  {
    CellsNamed(q, sequence, request);
    LoadListed(entries, q);
  }

  /** The last good values that come back are those that can be rebuilt. */
  lemma LastGoodBack(values: map<string, Value>, texts: map<string, Expr>)
    requires texts == map c | c in values :: AsExpr(values[c])
    ensures forall c :: c in LastGoodOf(texts) <==> c in values && SymbolKeyed(AsExpr(values[c]))
    ensures forall c :: c in values && DataValue(values[c]) ==> c in LastGoodOf(texts) && LastGoodOf(texts)[c] == values[c]
  {
    forall c
      ensures c in LastGoodOf(texts) <==> c in values && SymbolKeyed(AsExpr(values[c]))
      ensures c in values && DataValue(values[c]) ==> c in LastGoodOf(texts) && LastGoodOf(texts)[c] == values[c]
    {
      if c in values {
        RestoreKeeps(texts[c]);
        if DataValue(values[c]) {
          RestoreBack(values[c]);
        }
      }
    }
  }

  function Tokens(entries: seq<Queued>): set<nat> {
    set e | e in entries && e.continuation.Some? :: e.continuation.value
  }

  lemma TokensMean(entries: seq<Queued>)
    ensures forall t :: t in Tokens(entries) <==> exists e :: e in entries && e.continuation == Some(t)
  {
  }

  /** restore_last_good keeps what can be rebuilt. */
  function LastGoodOf(values: map<string, Expr>): map<string, Value> {
    map c | c in values && Restore(values[c]).Ok? :: Restore(values[c]).value.0
  }
}
