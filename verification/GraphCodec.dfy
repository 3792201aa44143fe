/** The persisted form of the derived graph: queries, observations, memos and
    failures. */
module GraphCodec {
  import opened Syntax
  import opened Texts
  import opened Records

  /** A graph key, by the text of the path it names. */
  datatype Query =
    | Cell(path: string)
    | NameSlot(path: string)
    | LookupStep(path: string)
    | Listing(path: string)
    | MountEpoch(path: string)
    | EffectivePolicy(path: string)
    | AuthorityPolicy(path: string)
    | CodecRegistry
    | AuthorityCeiling
    | ForceEpoch(path: string)

  datatype ObservationKind = ReadKind | MissingKind | ListingKind | PolicyKind | EpochKind | Custom(name: string)

  datatype Observation = Observation(key: Query, kind: ObservationKind, revision: Word, fingerprint: Option<Word>)

  datatype Failure =
    | Evaluation(message: string)
    | Cycle(trail: seq<Query>)
    | ExpressionDepth(limit: Word)
    | Blocked(path: string, reason: string)
    | RequiredCapability(path: string, capability: string)

  // ---- Queries ----

  function QueryRecord(kind: string, argument: Expr): seq<Field> {
    [Field("kind", Str(kind)), Field("argument", argument)]
  }

  function EncodeQuery(q: Query): Expr {
    Record(match q
           case Cell(p) => QueryRecord("cell", Str(p))
           case NameSlot(p) => QueryRecord("name-slot", Str(p))
           case LookupStep(p) => QueryRecord("lookup-step", Str(p))
           case Listing(p) => QueryRecord("listing", Str(p))
           case MountEpoch(p) => QueryRecord("mount-epoch", Str(p))
           case EffectivePolicy(p) => QueryRecord("effective-policy", Str(p))
           case AuthorityPolicy(p) => QueryRecord("authority-policy", Str(p))
           case CodecRegistry => QueryRecord("codec-registry", Nil)
           case AuthorityCeiling => QueryRecord("authority-ceiling", Nil)
           case ForceEpoch(p) => QueryRecord("force-epoch", Str(p)))
  }

  function Argument(e: Expr): Decoded<Option<string>> {
    if e.Nil? then Ok(None) else if e.Str? then Ok(Some(e.text)) else Err(Corrupt("query argument is not text or nil"))
  }

  function QueryOf(kind: string, argument: Option<string>): Decoded<Query> {
    if kind == "codec-registry" && argument.None? then Ok(CodecRegistry)
    else if kind == "authority-ceiling" && argument.None? then Ok(AuthorityCeiling)
    else if kind !in ["cell", "name-slot", "lookup-step", "listing", "mount-epoch", "effective-policy", "authority-policy", "force-epoch"]
    then Err(Corrupt("unknown query kind " + kind))
    else if argument.None? then Err(Corrupt(kind + " query has no argument"))
    else if kind == "cell" then Ok(Cell(argument.value))
    else if kind == "name-slot" then Ok(NameSlot(argument.value))
    else if kind == "lookup-step" then Ok(LookupStep(argument.value))
    else if kind == "listing" then Ok(Listing(argument.value))
    else if kind == "mount-epoch" then Ok(MountEpoch(argument.value))
    else if kind == "effective-policy" then Ok(EffectivePolicy(argument.value))
    else if kind == "authority-policy" then Ok(AuthorityPolicy(argument.value))
    else Ok(ForceEpoch(argument.value))
  }

  function DecodeQuery(e: Expr): Decoded<Query> {
    var fields :- FieldsOf(e);
    var kindField :- Required(fields, "kind");
    var kind :- ParseText(kindField);
    var argumentField :- Required(fields, "argument");
    var argument :- Argument(argumentField);
    QueryOf(kind, argument)
  }

  lemma QueryRecordBack(kind: string, argument: Expr)
    ensures var fields := FieldsOf(Record(QueryRecord(kind, argument)));
            && fields.Ok?
            && Required(fields.value, "kind") == Ok(Str(kind)) && Required(fields.value, "argument") == Ok(argument)
  {
    var fs := QueryRecord(kind, argument);
    OutlinesDiffer(fs, [OutlineOf("kind"), OutlineOf("argument")]);
    RecordBack(fs);
    assert fs[0].name == "kind" && fs[1].name == "argument";
  }

  lemma QueryDecodes(kind: string, argument: Option<string>)
    ensures var text := match argument case None => Nil case Some(p) => Str(p);
            DecodeQuery(Record(QueryRecord(kind, text))) == QueryOf(kind, argument)
  {
    var text := match argument case None => Nil case Some(p) => Str(p);
    QueryRecordBack(kind, text);
    hide FieldsOf, Record, QueryOf;
  }

  lemma QueryBack(q: Query)
    ensures DecodeQuery(EncodeQuery(q)) == Ok(q)
  {
    hide DecodeQuery, QueryRecord, Record;
    match q
    case Cell(p) => QueryDecodes("cell", Some(p));
    case NameSlot(p) => QueryDecodes("name-slot", Some(p));
    case LookupStep(p) => QueryDecodes("lookup-step", Some(p));
    case Listing(p) => QueryDecodes("listing", Some(p));
    case MountEpoch(p) => QueryDecodes("mount-epoch", Some(p));
    case EffectivePolicy(p) => QueryDecodes("effective-policy", Some(p));
    case AuthorityPolicy(p) => QueryDecodes("authority-policy", Some(p));
    case CodecRegistry => QueryDecodes("codec-registry", None);
    case AuthorityCeiling => QueryDecodes("authority-ceiling", None);
    case ForceEpoch(p) => QueryDecodes("force-epoch", Some(p));
  }

  /** The fields of a record read back by name, given outlines that tell them apart. */
  lemma FieldsBack(fs: seq<Field>, outlines: seq<Outline>)
    requires |fs| == |outlines| && forall i :: 0 <= i < |fs| ==> OutlineOf(fs[i].name) == outlines[i]
    requires forall i, j :: 0 <= i < j < |outlines| ==> outlines[i] != outlines[j]
    ensures FieldsOf(Record(fs)).Ok?
    ensures forall i {:trigger fs[i]} :: 0 <= i < |fs| ==> Required(FieldsOf(Record(fs)).value, fs[i].name) == Ok(fs[i].value)
  {
    OutlinesDiffer(fs, outlines);
    RecordBack(fs);
  }

  // ---- Observations ----

  function KindName(k: ObservationKind): string {
    match k
    case ReadKind => "read"
    case MissingKind => "missing"
    case ListingKind => "listing"
    case PolicyKind => "policy"
    case EpochKind => "epoch"
    case Custom(name) => if name in CUSTOM_KINDS then "custom:" + name else "custom:unsupported"
  }

  const CUSTOM_KINDS := ["cell-source", "lexical-binding", "codec-registry", "force-epoch", "lookup-step"]

  function DecodeKind(name: string): Decoded<ObservationKind> {
    if name == "read" then Ok(ReadKind)
    else if name == "missing" then Ok(MissingKind)
    else if name == "listing" then Ok(ListingKind)
    else if name == "policy" then Ok(PolicyKind)
    else if name == "epoch" then Ok(EpochKind)
    else if |name| >= 7 && name[..7] == "custom:" && name[7..] in CUSTOM_KINDS then Ok(Custom(name[7..]))
    else Err(Corrupt("unknown observation kind " + name))
  }

  /** The kinds the evaluator emits are exactly those that read back. */
  lemma KindBack(k: ObservationKind)
    ensures DecodeKind(KindName(k)) == Ok(k) <==> (k.Custom? ==> k.name in CUSTOM_KINDS)
  {
    if k.Custom? {
      var name := if k.name in CUSTOM_KINDS then k.name else "unsupported";
      var text := "custom:" + name;
      assert text[..7] == "custom:" && text[7..] == name;
      assert |text| >= 7 && text[0] == 'c';
      assert "unsupported"[0] == 'u';
    }
  }

  function ObservationRecord(o: Observation): seq<Field> {
    [Field("key", EncodeQuery(o.key)), Field("kind", Str(KindName(o.kind))), Field("revision", NumberText(o.revision)),
     Field("fingerprint", OptionalNumber(o.fingerprint))]
  }

  function EncodeObservation(o: Observation): Expr {
    Record(ObservationRecord(o))
  }

  function DecodeObservation(e: Expr): Decoded<Observation> {
    var fields :- FieldsOf(e);
    var keyField :- Required(fields, "key");
    var key :- DecodeQuery(keyField);
    var kindField :- Required(fields, "kind");
    var kindText :- ParseText(kindField);
    var kind :- DecodeKind(kindText);
    var revisionField :- Required(fields, "revision");
    var revision :- ParseWord(revisionField);
    var fingerprintField :- Required(fields, "fingerprint");
    var fingerprint :- ParseOptional(fingerprintField);
    Ok(Observation(key, kind, revision, fingerprint))
  }

  predicate Emitted(o: Observation) {
    o.kind.Custom? ==> o.kind.name in CUSTOM_KINDS
  }

  lemma ObservationBack(o: Observation)
    requires Emitted(o)
    ensures DecodeObservation(EncodeObservation(o)) == Ok(o)
  {
    var fs := ObservationRecord(o);
    FieldsBack(fs, [OutlineOf("key"), OutlineOf("kind"), OutlineOf("revision"), OutlineOf("fingerprint")]);
    hide FieldsOf, Record, Required, DecodeQuery, EncodeQuery, KindName, DecodeKind;
    assert fs[0].name == "key" && fs[1].name == "kind" && fs[2].name == "revision" && fs[3].name == "fingerprint";
    QueryBack(o.key);
    KindBack(o.kind);
    NumberBack(o.revision);
    OptionalBack(o.fingerprint);
  }

  // ---- Failures ----

  function FailureRecord(f: Failure): seq<Field> {
    match f
    case Evaluation(message) => [Field("kind", Str("evaluation")), Field("message", Str(message))]
    case Cycle(trail) => [Field("kind", Str("cycle")), Field("path", Vector(EncodeAll(trail, EncodeQuery)))]
    case ExpressionDepth(limit) => [Field("kind", Str("expression-depth")), Field("limit", NumberText(limit))]
    case Blocked(path, reason) => [Field("kind", Str("blocked")), Field("path", Str(path)), Field("reason", Str(reason))]
    case RequiredCapability(path, capability) =>
      [Field("kind", Str("required-capability")), Field("path", Str(path)), Field("capability", Str(capability))]
  }

  function EncodeFailure(f: Failure): Expr {
    Record(FailureRecord(f))
  }

  function TextField(fields: map<string, Expr>, name: string): Decoded<string> {
    var field :- Required(fields, name);
    ParseText(field)
  }

  function DecodeFailure(e: Expr): Decoded<Failure> {
    var fields :- FieldsOf(e);
    var kind :- TextField(fields, "kind");
    FailureOf(kind, fields)
  }

  function FailureOf(kind: string, fields: map<string, Expr>): Decoded<Failure> {
    if kind == "evaluation" then
      var message :- TextField(fields, "message");
      Ok(Evaluation(message))
    else if kind == "cycle" then
      var field :- Required(fields, "path");
      var items :- ParseVector(field);
      var trail :- DecodeAll(items, DecodeQuery);
      Ok(Cycle(trail))
    else if kind == "expression-depth" then
      var field :- Required(fields, "limit");
      var limit :- ParseWord(field);
      Ok(ExpressionDepth(limit))
    else if kind == "blocked" then
      var path :- TextField(fields, "path");
      var reason :- TextField(fields, "reason");
      Ok(Blocked(path, reason))
    else if kind == "required-capability" then
      var path :- TextField(fields, "path");
      var capability :- TextField(fields, "capability");
      Ok(RequiredCapability(path, capability))
    else Err(Corrupt("unknown cell failure " + kind))
  }

  lemma FailureBack(f: Failure)
    ensures DecodeFailure(EncodeFailure(f)) == Ok(f)
  {
    var fs := FailureRecord(f);
    var outlines := match f
      case Evaluation(_) => [OutlineOf("kind"), OutlineOf("message")]
      case Cycle(_) => [OutlineOf("kind"), OutlineOf("path")]
      case ExpressionDepth(_) => [OutlineOf("kind"), OutlineOf("limit")]
      case Blocked(_, _) => [OutlineOf("kind"), OutlineOf("path"), OutlineOf("reason")]
      case RequiredCapability(_, _) => [OutlineOf("kind"), OutlineOf("path"), OutlineOf("capability")];
    FieldsBack(fs, outlines);
    hide FieldsOf, Record, Required, EncodeAll, DecodeAll, DecodeQuery, EncodeQuery;
    assert fs[0].name == "kind";
    match f
    case Evaluation(message) => assert fs[1].name == "message";
    case Cycle(trail) =>
      assert fs[1].name == "path";
      forall q | q in trail ensures DecodeQuery(EncodeQuery(q)) == Ok(q) {
        QueryBack(q);
      }
      AllBack(trail, EncodeQuery, DecodeQuery);
    case ExpressionDepth(limit) =>
      assert fs[1].name == "limit";
      NumberBack(limit);
    case Blocked(path, reason) => assert fs[1].name == "path" && fs[2].name == "reason";
    case RequiredCapability(path, capability) => assert fs[1].name == "path" && fs[2].name == "capability";
  }

  // ---- Values ----

  /** A result value: data, or an expression object. */
  datatype Value =
    | NilValue
    | BoolValue(truth: bool)
    | NumberValue(domain: Symbol, canonical: string)
    | SymbolValue(symbol: Symbol)
    | StringValue(text: string)
    | BytesValue(bytes: seq<nat>)
    | ListValue(items: seq<Value>)
    | TableValue(rows: seq<TableRow>)
    | ExprValue(expr: Expr)

  datatype TableRow = TableRow(key: Symbol, value: Value)

  function AsExpr(v: Value): Expr {
    match v
    case NilValue => Nil
    case BoolValue(truth) => Bool(truth)
    case NumberValue(domain, canonical) => Number(domain, canonical)
    case SymbolValue(symbol) => Sym(symbol)
    case StringValue(text) => Str(text)
    case BytesValue(bytes) => Bytes(bytes)
    case ListValue(items) => List(seq(|items|, i requires 0 <= i < |items| => AsExpr(items[i])))
    case TableValue(rows) => Map(seq(|rows|, i requires 0 <= i < |rows| => RowAsEntry(rows[i])))
    case ExprValue(expr) => expr
  }

  function RowAsEntry(row: TableRow): Entry {
    Entry(Sym(row.key), AsExpr(row.value))
  }

  /** restore_value: data is rebuilt; anything else comes back as an expression
      object that is not to be reused. */
  function Restore(e: Expr): Decoded<(Value, bool)> {
    match e
    case Nil => Ok((NilValue, true))
    case Bool(truth) => Ok((BoolValue(truth), true))
    case Number(domain, canonical) => Ok((NumberValue(domain, canonical), true))
    case Sym(symbol) => Ok((SymbolValue(symbol), true))
    case Str(text) => Ok((StringValue(text), true))
    case Bytes(bytes) => Ok((BytesValue(bytes), true))
    case List(items) =>
      var all :- RestoreItems(items);
      Ok((ListValue(all.0), all.1))
    case Map(entries) =>
      var all :- RestoreEntries(entries);
      Ok((TableValue(all.0), all.1))
    case _ => Ok((ExprValue(e), false))
  }

  function RestoreItems(items: seq<Expr>): Decoded<(seq<Value>, bool)> {
    if items == [] then Ok(([], true))
    else
      var first :- Restore(items[0]);
      var rest :- RestoreItems(items[1..]);
      Ok(([first.0] + rest.0, first.1 && rest.1))
  }

  function RestoreEntries(entries: seq<Entry>): Decoded<(seq<TableRow>, bool)> {
    if entries == [] then Ok(([], true))
    else if !entries[0].key.Sym? then Err(Corrupt("persisted value map key is not a symbol"))
    else
      assert entries[0].value < entries[0];
      var first :- Restore(entries[0].value);
      var rest :- RestoreEntries(entries[1..]);
      Ok(([TableRow(entries[0].key.symbol, first.0)] + rest.0, first.1 && rest.1))
  }

  /** Every map met on the way down has symbols for keys. */
  predicate SymbolKeyed(e: Expr) {
    match e
    case List(items) => forall i :: 0 <= i < |items| ==> SymbolKeyed(items[i])
    case Map(entries) => forall i :: 0 <= i < |entries| ==> EntryKeyed(entries[i])
    case _ => true
  }

  predicate EntryKeyed(entry: Entry) {
    entry.key.Sym? && SymbolKeyed(entry.value)
  }

  /** Data all the way down. */
  predicate Plain(e: Expr) {
    match e
    case List(items) => forall i :: 0 <= i < |items| ==> Plain(items[i])
    case Map(entries) => forall i :: 0 <= i < |entries| ==> EntryPlain(entries[i])
    case _ => e.Nil? || e.Bool? || e.Number? || e.Sym? || e.Str? || e.Bytes?
  }

  predicate EntryPlain(entry: Entry) {
    Plain(entry.value)
  }

  /** Restoring succeeds exactly on symbol-keyed data, keeps the projection, and is
      reusable exactly on plain data. */
  lemma {:induction false} RestoreKeeps(e: Expr)
    ensures if SymbolKeyed(e) then Restore(e).Ok? else Corrupted(Restore(e))
    ensures Restore(e).Ok? ==> AsExpr(Restore(e).value.0) == e && (Restore(e).value.1 <==> Plain(e))
  {
    if e.List? {
      ItemsKept(e.items);
      hide RestoreItems, RestoreEntries, RowAsEntry;
    } else if e.Map? {
      EntriesKept(e.entries);
      hide RestoreItems, RestoreEntries, EntryKeyed, RowAsEntry;
    } else {
      hide RestoreItems, RestoreEntries, EntryKeyed, RowAsEntry;
    }
  }

  lemma {:induction false} ItemsKept(items: seq<Expr>)
    ensures if forall i :: 0 <= i < |items| ==> SymbolKeyed(items[i]) then RestoreItems(items).Ok? else Corrupted(RestoreItems(items))
    ensures RestoreItems(items).Ok? ==>
              var (values, reusable) := RestoreItems(items).value;
              && |values| == |items| && (forall i :: 0 <= i < |items| ==> AsExpr(values[i]) == items[i])
              && (reusable <==> forall i :: 0 <= i < |items| ==> Plain(items[i]))
  {
    if items != [] {
      RestoreKeeps(items[0]);
      ItemsKept(items[1..]);
      hide Restore, SymbolKeyed, Plain, AsExpr;
      assert items == [items[0]] + items[1..];
    }
  }

  lemma {:induction false} EntriesKept(entries: seq<Entry>)
    ensures if forall i :: 0 <= i < |entries| ==> EntryKeyed(entries[i]) then RestoreEntries(entries).Ok? else Corrupted(RestoreEntries(entries))
    ensures RestoreEntries(entries).Ok? ==>
              var (rows, reusable) := RestoreEntries(entries).value;
              && |rows| == |entries| && (forall i :: 0 <= i < |entries| ==> RowAsEntry(rows[i]) == entries[i])
              && (reusable <==> forall i :: 0 <= i < |entries| ==> EntryPlain(entries[i]))
  {
    if entries != [] {
      assert entries[0].value < entries[0];
      RestoreKeeps(entries[0].value);
      EntriesKept(entries[1..]);
      hide Restore, SymbolKeyed, Plain, AsExpr;
      assert entries == [entries[0]] + entries[1..];
    }
  }

  /** A value that holds no expression object. */
  predicate DataValue(v: Value) {
    match v
    case ListValue(items) => forall i :: 0 <= i < |items| ==> DataValue(items[i])
    case TableValue(rows) => forall i :: 0 <= i < |rows| ==> DataRow(rows[i])
    case ExprValue(_) => false
    case _ => true
  }

  predicate DataRow(row: TableRow) {
    DataValue(row.value)
  }

  /** Data comes back as the value it was. */
  lemma {:induction false} RestoreBack(v: Value)
    requires DataValue(v)
    ensures Restore(AsExpr(v)) == Ok((v, true))
  {
    match v
    case ListValue(items) =>
      ItemsBack(items);
      assert AsExpr(v).items == seq(|items|, i requires 0 <= i < |items| => AsExpr(items[i]));
    case TableValue(rows) =>
      RowsRestored(rows);
      assert AsExpr(v).entries == seq(|rows|, i requires 0 <= i < |rows| => RowAsEntry(rows[i]));
    case _ =>
  }

  lemma {:induction false} ItemsBack(items: seq<Value>)
    requires forall i :: 0 <= i < |items| ==> DataValue(items[i])
    ensures RestoreItems(seq(|items|, i requires 0 <= i < |items| => AsExpr(items[i]))) == Ok((items, true))
  {
    if items != [] {
      RestoreBack(items[0]);
      ItemsBack(items[1..]);
      hide Restore, AsExpr, DataValue;
      var es := seq(|items|, i requires 0 <= i < |items| => AsExpr(items[i]));
      assert es[1..] == seq(|items[1..]|, i requires 0 <= i < |items[1..]| => AsExpr(items[1..][i]));
      assert items == [items[0]] + items[1..];
    }
  }

  lemma {:induction false} RowsRestored(rows: seq<TableRow>)
    requires forall i :: 0 <= i < |rows| ==> DataRow(rows[i])
    ensures RestoreEntries(seq(|rows|, i requires 0 <= i < |rows| => RowAsEntry(rows[i]))) == Ok((rows, true))
  {
    if rows != [] {
      assert DataRow(rows[0]) && rows[0].value < rows[0];
      RestoreBack(rows[0].value);
      RowsRestored(rows[1..]);
      hide Restore, AsExpr, DataValue;
      var entries := seq(|rows|, i requires 0 <= i < |rows| => RowAsEntry(rows[i]));
      assert entries[1..] == seq(|rows[1..]|, i requires 0 <= i < |rows[1..]| => RowAsEntry(rows[1..][i]));
      assert rows == [rows[0]] + rows[1..];
    }
  }

  // ---- Memos and nodes ----

  datatype Memo = Computed(value: Value, volatile: bool) | Failing(failure: Failure)

  datatype Node = Node(
    key: Query, revision: Word, dirty: bool, memo: Option<Memo>, fingerprint: Option<Word>, dependencies: seq<Observation>)

  function MemoRecord(m: Memo): seq<Field> {
    match m
    case Computed(value, volatile) => [Field("kind", Str("value")), Field("expr", AsExpr(value)), Field("volatile", Bool(volatile))]
    case Failing(failure) => [Field("kind", Str("failure")), Field("failure", EncodeFailure(failure))]
  }

  function EncodeMemo(m: Option<Memo>): Expr {
    match m case None => Nil case Some(memo) => Record(MemoRecord(memo))
  }

  /** The memo and whether it may be reused. */
  function DecodeMemo(e: Expr): Decoded<(Option<Memo>, bool)> {
    if e.Nil? then Ok((None, true))
    else
      var fields :- FieldsOf(e);
      var kind :- TextField(fields, "kind");
      MemoOf(kind, fields)
  }

  function MemoOf(kind: string, fields: map<string, Expr>): Decoded<(Option<Memo>, bool)> {
    if kind == "value" then
      var projected :- Required(fields, "expr");
      var restored :- Restore(projected);
      var volatileField :- Required(fields, "volatile");
      var volatile :- ParseBool(volatileField);
      Ok((Some(Computed(restored.0, volatile)), restored.1 && !volatile))
    else if kind == "failure" then
      var field :- Required(fields, "failure");
      var failure :- DecodeFailure(field);
      Ok((Some(Failing(failure)), true))
    else Err(Corrupt("unknown memo kind " + kind))
  }

  /** What the persisted form can hold of a memo. */
  predicate MemoHeld(m: Option<Memo>) {
    m.Some? && m.value.Computed? ==> SymbolKeyed(AsExpr(m.value.value))
  }

  /** A memo whose value is rebuilt from its projection. */
  function MemoRestored(m: Option<Memo>): Option<Memo>
    requires MemoHeld(m)
  {
    if m.Some? && m.value.Computed? then
      RestoreKeeps(AsExpr(m.value.value));
      Some(Computed(Restore(AsExpr(m.value.value)).value.0, m.value.volatile))
    else m
  }

  /** Failures may be reused, and stable values that are plain data. */
  predicate Reusable(m: Option<Memo>) {
    m.Some? && m.value.Computed? ==> Plain(AsExpr(m.value.value)) && !m.value.volatile
  }

  lemma MemoBack(m: Option<Memo>)
    ensures if MemoHeld(m) then DecodeMemo(EncodeMemo(m)) == Ok((MemoRestored(m), Reusable(m))) else Corrupted(DecodeMemo(EncodeMemo(m)))
  {
    if m.Some? {
      var fs := MemoRecord(m.value);
      FieldsBack(fs, match m.value case Computed(_, _) => [OutlineOf("kind"), OutlineOf("expr"), OutlineOf("volatile")] case Failing(_) => [OutlineOf("kind"), OutlineOf("failure")]);
      hide FieldsOf, Required, DecodeFailure, EncodeFailure, Restore, AsExpr, SymbolKeyed, Plain;
      assert fs[0].name == "kind";
      match m.value
      case Computed(value, volatile) =>
        assert fs[1].name == "expr" && fs[2].name == "volatile";
        RestoreKeeps(AsExpr(value));
      case Failing(failure) =>
        assert fs[1].name == "failure";
        FailureBack(failure);
    }
  }

  function NodeRecord(n: Node): seq<Field> {
    [Field("key", EncodeQuery(n.key)), Field("revision", NumberText(n.revision)), Field("dirty", Bool(n.dirty)),
     Field("value", EncodeMemo(n.memo)), Field("fingerprint", OptionalNumber(n.fingerprint)),
     Field("observations", Vector(EncodeAll(n.dependencies, EncodeObservation)))]
  }

  function EncodeNode(n: Node): Expr {
    Record(NodeRecord(n))
  }

  function DecodeNode(e: Expr): Decoded<Node> {
    var fields :- FieldsOf(e);
    var memoField :- Required(fields, "value");
    var memo :- DecodeMemo(memoField);
    var keyField :- Required(fields, "key");
    var key :- DecodeQuery(keyField);
    var revisionField :- Required(fields, "revision");
    var revision :- ParseWord(revisionField);
    var dirtyField :- Required(fields, "dirty");
    var dirty :- ParseBool(dirtyField);
    var fingerprintField :- Required(fields, "fingerprint");
    var fingerprint :- ParseOptional(fingerprintField);
    var observationsField :- Required(fields, "observations");
    var observations :- ParseVector(observationsField);
    var dependencies :- DecodeAll(observations, DecodeObservation);
    Ok(Node(key, revision, dirty || !memo.1, memo.0, fingerprint, dependencies))
  }

  predicate NodeHeld(n: Node) {
    MemoHeld(n.memo) && forall o | o in n.dependencies :: Emitted(o)
  }

  /** The node as it comes back: dirty unless its memo may be reused. */
  function NodeRestored(n: Node): Node
    requires NodeHeld(n)
  {
    n.(memo := MemoRestored(n.memo), dirty := n.dirty || !Reusable(n.memo))
  }

  lemma NodeBack(n: Node)
    requires NodeHeld(n)
    ensures DecodeNode(EncodeNode(n)) == Ok(NodeRestored(n))
  {
    var fs := NodeRecord(n);
    FieldsBack(fs, [OutlineOf("key"), OutlineOf("revision"), OutlineOf("dirty"), OutlineOf("value"), OutlineOf("fingerprint"), OutlineOf("observations")]);
    hide FieldsOf, Record, Required, DecodeQuery, EncodeQuery, EncodeMemo, DecodeMemo, EncodeAll, DecodeAll,
         EncodeObservation, DecodeObservation, MemoRestored, Reusable, Emitted;
    assert fs[0].name == "key" && fs[1].name == "revision" && fs[2].name == "dirty" && fs[3].name == "value"
           && fs[4].name == "fingerprint" && fs[5].name == "observations";
    QueryBack(n.key);
    NumberBack(n.revision);
    OptionalBack(n.fingerprint);
    MemoBack(n.memo);
    forall o | o in n.dependencies ensures DecodeObservation(EncodeObservation(o)) == Ok(o) {
      ObservationBack(o);
    }
    AllBack(n.dependencies, EncodeObservation, DecodeObservation);
  }

  /** A node whose value has a map with another key than a symbol is not read. */
  lemma NodeUnreadable(n: Node)
    requires !MemoHeld(n.memo)
    ensures Corrupted(DecodeNode(EncodeNode(n)))
  {
    var fs := NodeRecord(n);
    FieldsBack(fs, [OutlineOf("key"), OutlineOf("revision"), OutlineOf("dirty"), OutlineOf("value"), OutlineOf("fingerprint"), OutlineOf("observations")]);
    hide FieldsOf, Record, Required, EncodeQuery, EncodeMemo, DecodeMemo, MemoHeld, EncodeAll, EncodeObservation;
    assert fs[3].name == "value";
    MemoBack(n.memo);
  }

  /** A node whose value is stable data comes back as it was. */
  lemma NodeUnchanged(n: Node)
    requires NodeHeld(n) && (n.memo.Some? && n.memo.value.Computed? ==> DataValue(n.memo.value.value) && !n.memo.value.volatile)
    ensures NodeRestored(n) == n
  {
    if n.memo.Some? && n.memo.value.Computed? {
      RestoreBack(n.memo.value.value);
      RestoreKeeps(AsExpr(n.memo.value.value));
    }
  }
}
