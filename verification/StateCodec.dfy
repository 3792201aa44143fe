/** The persisted form of receipts, the automatic queue, the refresh samples and the
    maps beside the graph.  Every encoder has its decoder here and a lemma that says
    the one undoes the other; the lemmas are put together in the module of the whole
    snapshot. */
module StateCodec {
  import opened Syntax
  import opened Texts
  import opened Records
  import opened GraphCodec
  import opened Scheduling
  import opened Schedulers
  import Policy

  type Trigger = Policy.Trigger

  // ---- Receipts ----

  datatype Stamp = Stamp(query: Query, kind: ObservationKind, revision: Word, fingerprint: Option<Word>)

  datatype Effect = Effect(kind: string, aborted: bool)

  datatype Outcome =
    | Succeeded
    | FailedWith(message: string)
    | BlockedWith(message: string)
    | CancelledOutcome
    | BudgetExhausted(message: string, continuation: Option<Word>)

  datatype Reason = DirectedVerify | DirectedForceRoots | DirectedForceRecursive | AutomaticMutation | ContinuationReason

  datatype Receipt = Receipt(
    request: Word, cell: string, sourceRevision: Word, policyDigest: Word, authorityDigest: Word,
    dependencies: seq<Stamp>, omittedDependencies: Word, dependencyDigest: Word,
    effects: seq<Effect>, omittedEffects: Word, startedTick: Word, finishedTick: Word,
    wallStarted: Option<Word>, wallFinished: Option<Word>, outcome: Outcome,
    resultFingerprint: Option<Word>, reason: Reason, trigger: Trigger)

  function StampRecord(s: Stamp): seq<Field> {
    [Field("query", EncodeQuery(s.query)), Field("kind", Str(KindName(s.kind))), Field("revision", NumberText(s.revision)),
     Field("fingerprint", OptionalNumber(s.fingerprint))]
  }

  function EncodeStamp(s: Stamp): Expr {
    Record(StampRecord(s))
  }

  function DecodeStamp(e: Expr): Decoded<Stamp> {
    var fields :- FieldsOf(e);
    var queryField :- Required(fields, "query");
    var query :- DecodeQuery(queryField);
    var kindText :- TextField(fields, "kind");
    var kind :- DecodeKind(kindText);
    var revision :- WordField(fields, "revision");
    var fingerprint :- OptionalField(fields, "fingerprint");
    Ok(Stamp(query, kind, revision, fingerprint))
  }

  function WordField(fields: map<string, Expr>, name: string): Decoded<Word> {
    var field :- Required(fields, name);
    ParseWord(field)
  }

  function OptionalField(fields: map<string, Expr>, name: string): Decoded<Option<Word>> {
    var field :- Required(fields, name);
    ParseOptional(field)
  }

  function VectorField(fields: map<string, Expr>, name: string): Decoded<seq<Expr>> {
    var field :- Required(fields, name);
    ParseVector(field)
  }

  predicate StampHeld(s: Stamp) {
    s.kind.Custom? ==> s.kind.name in CUSTOM_KINDS
  }

  lemma StampBack(s: Stamp)
    requires StampHeld(s)
    ensures DecodeStamp(EncodeStamp(s)) == Ok(s)
  {
    var fs := StampRecord(s);
    FieldsBack(fs, [OutlineOf("query"), OutlineOf("kind"), OutlineOf("revision"), OutlineOf("fingerprint")]);
    hide FieldsOf, Record, Required, DecodeQuery, EncodeQuery, KindName, DecodeKind;
    assert fs[0].name == "query" && fs[1].name == "kind" && fs[2].name == "revision" && fs[3].name == "fingerprint";
    QueryBack(s.query);
    KindBack(s.kind);
    NumberBack(s.revision);
    OptionalBack(s.fingerprint);
  }

  function EncodeEffect(e: Effect): Expr {
    Record([Field("kind", Str(e.kind)), Field("aborted", Bool(e.aborted))])
  }

  function DecodeEffect(e: Expr): Decoded<Effect> {
    var fields :- FieldsOf(e);
    var kind :- TextField(fields, "kind");
    var abortedField :- Required(fields, "aborted");
    var aborted :- ParseBool(abortedField);
    Ok(Effect(kind, aborted))
  }

  lemma EffectBack(e: Effect)
    ensures DecodeEffect(EncodeEffect(e)) == Ok(e)
  {
    var fs := [Field("kind", Str(e.kind)), Field("aborted", Bool(e.aborted))];
    FieldsBack(fs, [OutlineOf("kind"), OutlineOf("aborted")]);
    hide FieldsOf, Record, Required;
    assert fs[0].name == "kind" && fs[1].name == "aborted";
  }

  function OutcomeRecord(o: Outcome): seq<Field> {
    match o
    case Succeeded => [Field("kind", Str("succeeded"))]
    case FailedWith(message) => [Field("kind", Str("failed")), Field("message", Str(message))]
    case BlockedWith(message) => [Field("kind", Str("blocked")), Field("message", Str(message))]
    case CancelledOutcome => [Field("kind", Str("cancelled"))]
    case BudgetExhausted(message, continuation) =>
      [Field("kind", Str("budget-exhausted")), Field("message", Str(message)), Field("continuation", OptionalNumber(continuation))]
  }

  function EncodeOutcome(o: Outcome): Expr {
    Record(OutcomeRecord(o))
  }

  function DecodeOutcome(e: Expr): Decoded<Outcome> {
    var fields :- FieldsOf(e);
    var kind :- TextField(fields, "kind");
    OutcomeOf(kind, fields)
  }

  function OutcomeOf(kind: string, fields: map<string, Expr>): Decoded<Outcome> {
    if kind == "succeeded" then Ok(Succeeded)
    else if kind == "failed" then
      var message :- TextField(fields, "message");
      Ok(FailedWith(message))
    else if kind == "blocked" then
      var message :- TextField(fields, "message");
      Ok(BlockedWith(message))
    else if kind == "cancelled" then Ok(CancelledOutcome)
    else if kind == "budget-exhausted" then
      var message :- TextField(fields, "message");
      var continuation :- OptionalField(fields, "continuation");
      Ok(BudgetExhausted(message, continuation))
    else Err(Corrupt("unknown calculation outcome " + kind))
  }

  lemma OutcomeBack(o: Outcome)
    ensures DecodeOutcome(EncodeOutcome(o)) == Ok(o)
  {
    var fs := OutcomeRecord(o);
    FieldsBack(fs, match o
                   case Succeeded => [OutlineOf("kind")]
                   case FailedWith(_) => [OutlineOf("kind"), OutlineOf("message")]
                   case BlockedWith(_) => [OutlineOf("kind"), OutlineOf("message")]
                   case CancelledOutcome => [OutlineOf("kind")]
                   case BudgetExhausted(_, _) => [OutlineOf("kind"), OutlineOf("message"), OutlineOf("continuation")]);
    hide FieldsOf, Record, Required;
    assert fs[0].name == "kind";
    match o
    case FailedWith(_) => assert fs[1].name == "message";
    case BlockedWith(_) => assert fs[1].name == "message";
    case BudgetExhausted(_, continuation) =>
      assert fs[1].name == "message" && fs[2].name == "continuation";
      OptionalBack(continuation);
    case _ =>
  }

  function ReasonName(r: Reason): string {
    match r
    case DirectedVerify => "directed-verify"
    case DirectedForceRoots => "directed-force-roots"
    case DirectedForceRecursive => "directed-force-recursive"
    case AutomaticMutation => "automatic-mutation"
    case ContinuationReason => "continuation"
  }

  function DecodeReason(name: string): Decoded<Reason> {
    if name == "directed-verify" then Ok(DirectedVerify)
    else if name == "directed-force-roots" then Ok(DirectedForceRoots)
    else if name == "directed-force-recursive" then Ok(DirectedForceRecursive)
    else if name == "automatic-mutation" then Ok(AutomaticMutation)
    else if name == "continuation" then Ok(ContinuationReason)
    else Err(Corrupt("unknown calculation reason " + name))
  }

  function TriggerName(t: Trigger): string {
    match t case Automatic => "automatic" case OnDemand => "on-demand" case Manual => "manual" case Frozen => "frozen"
  }

  function DecodeTrigger(name: string): Decoded<Trigger> {
    if name == "automatic" then Ok(Policy.Automatic)
    else if name == "on-demand" then Ok(Policy.OnDemand)
    else if name == "manual" then Ok(Policy.Manual)
    else if name == "frozen" then Ok(Policy.Frozen)
    else Err(Corrupt("unknown calculation trigger " + name))
  }

  lemma NamesBack(r: Reason, t: Trigger)
    ensures DecodeReason(ReasonName(r)) == Ok(r) && DecodeTrigger(TriggerName(t)) == Ok(t)
  {
  }

  function ReceiptRecord(r: Receipt): seq<Field> {
    [Field("request-id", NumberText(r.request)), Field("cell", Str(r.cell)), Field("source-revision", NumberText(r.sourceRevision)),
     Field("policy-digest", NumberText(r.policyDigest)), Field("authority-digest", NumberText(r.authorityDigest)),
     Field("dependencies", Vector(EncodeAll(r.dependencies, EncodeStamp))),
     Field("omitted-dependencies", NumberText(r.omittedDependencies)), Field("dependency-digest", NumberText(r.dependencyDigest)),
     Field("effects", Vector(EncodeAll(r.effects, EncodeEffect))), Field("omitted-effects", NumberText(r.omittedEffects)),
     Field("started-tick", NumberText(r.startedTick)), Field("finished-tick", NumberText(r.finishedTick)),
     Field("wall-started-ms", OptionalNumber(r.wallStarted)), Field("wall-finished-ms", OptionalNumber(r.wallFinished)),
     Field("outcome", EncodeOutcome(r.outcome)), Field("result-fingerprint", OptionalNumber(r.resultFingerprint)),
     Field("reason", Str(ReasonName(r.reason))), Field("trigger", Str(TriggerName(r.trigger)))]
  }

  function EncodeReceipt(r: Receipt): Expr {
    Record(ReceiptRecord(r))
  }

  function DecodeReceipt(e: Expr): Decoded<Receipt> {
    var fields :- FieldsOf(e);
    var request :- WordField(fields, "request-id");
    var cell :- TextField(fields, "cell");
    var sourceRevision :- WordField(fields, "source-revision");
    var policyDigest :- WordField(fields, "policy-digest");
    var authorityDigest :- WordField(fields, "authority-digest");
    var stamps :- VectorField(fields, "dependencies");
    var dependencies :- DecodeAll(stamps, DecodeStamp);
    var omittedDependencies :- WordField(fields, "omitted-dependencies");
    var dependencyDigest :- WordField(fields, "dependency-digest");
    var effectRows :- VectorField(fields, "effects");
    var effects :- DecodeAll(effectRows, DecodeEffect);
    var omittedEffects :- WordField(fields, "omitted-effects");
    var startedTick :- WordField(fields, "started-tick");
    var finishedTick :- WordField(fields, "finished-tick");
    var wallStarted :- OptionalField(fields, "wall-started-ms");
    var wallFinished :- OptionalField(fields, "wall-finished-ms");
    var outcomeField :- Required(fields, "outcome");
    var outcome :- DecodeOutcome(outcomeField);
    var resultFingerprint :- OptionalField(fields, "result-fingerprint");
    var reasonText :- TextField(fields, "reason");
    var reason :- DecodeReason(reasonText);
    var triggerText :- TextField(fields, "trigger");
    var trigger :- DecodeTrigger(triggerText);
    Ok(Receipt(request, cell, sourceRevision, policyDigest, authorityDigest, dependencies, omittedDependencies, dependencyDigest,
               effects, omittedEffects, startedTick, finishedTick, wallStarted, wallFinished, outcome, resultFingerprint, reason, trigger))
  }

  predicate ReceiptHeld(r: Receipt) {
    forall s | s in r.dependencies :: StampHeld(s)
  }

  const RECEIPT_OUTLINES := [
    Outline(10, 'r', 'd'), Outline(4, 'c', 'l'), Outline(15, 's', 'n'), Outline(13, 'p', 't'), Outline(16, 'a', 't'),
    Outline(12, 'd', 's'), Outline(20, 'o', 's'), Outline(17, 'd', 't'), Outline(7, 'e', 's'), Outline(15, 'o', 's'),
    Outline(12, 's', 'k'), Outline(13, 'f', 'k'), Outline(15, 'w', 's'), Outline(16, 'w', 's'), Outline(7, 'o', 'e'),
    Outline(18, 'r', 't'), Outline(6, 'r', 'n'), Outline(7, 't', 'r')
  ]

  lemma ReceiptOutlines(r: Receipt)
    ensures |ReceiptRecord(r)| == |RECEIPT_OUTLINES|
    ensures forall i :: 0 <= i < |RECEIPT_OUTLINES| ==> OutlineOf(ReceiptRecord(r)[i].name) == RECEIPT_OUTLINES[i]
  {
    hide EncodeAll, EncodeOutcome, NumberText, OptionalNumber, ReasonName, TriggerName;
    var fs := ReceiptRecord(r);
    assert OutlineOf(fs[0].name) == Outline(10, 'r', 'd');
    assert OutlineOf(fs[1].name) == Outline(4, 'c', 'l');
    assert OutlineOf(fs[2].name) == Outline(15, 's', 'n');
    assert OutlineOf(fs[3].name) == Outline(13, 'p', 't');
    assert OutlineOf(fs[4].name) == Outline(16, 'a', 't');
    assert OutlineOf(fs[5].name) == Outline(12, 'd', 's');
    assert OutlineOf(fs[6].name) == Outline(20, 'o', 's');
    assert OutlineOf(fs[7].name) == Outline(17, 'd', 't');
    assert OutlineOf(fs[8].name) == Outline(7, 'e', 's');
    assert OutlineOf(fs[9].name) == Outline(15, 'o', 's');
    assert OutlineOf(fs[10].name) == Outline(12, 's', 'k');
    assert OutlineOf(fs[11].name) == Outline(13, 'f', 'k');
    assert OutlineOf(fs[12].name) == Outline(15, 'w', 's');
    assert OutlineOf(fs[13].name) == Outline(16, 'w', 's');
    assert OutlineOf(fs[14].name) == Outline(7, 'o', 'e');
    assert OutlineOf(fs[15].name) == Outline(18, 'r', 't');
    assert OutlineOf(fs[16].name) == Outline(6, 'r', 'n');
    assert OutlineOf(fs[17].name) == Outline(7, 't', 'r');
  }

  lemma ReceiptDistinct(r: Receipt)
    ensures DistinctNames(ReceiptRecord(r))
  {
    ReceiptOutlines(r);
    hide ReceiptRecord, OutlineOf;
    OutlinesDiffer(ReceiptRecord(r), RECEIPT_OUTLINES);
  }

  // Each group of a receipt's fields reads back.

  lemma ReceiptIdentity(r: Receipt, m: map<string, Expr>)
    requires FieldsOf(EncodeReceipt(r)) == Ok(m)
    ensures WordField(m, "request-id") == Ok(r.request)
    ensures TextField(m, "cell") == Ok(r.cell)
    ensures WordField(m, "source-revision") == Ok(r.sourceRevision)
    ensures WordField(m, "policy-digest") == Ok(r.policyDigest)
    ensures WordField(m, "authority-digest") == Ok(r.authorityDigest)
  {
    ReceiptDistinct(r);
    var fs := ReceiptRecord(r);
    hide FieldsOf, Record, DistinctNames, EncodeAll, EncodeOutcome, ReasonName, TriggerName, ParseWord, ParseOptional, NumberText, OptionalNumber;
    FieldIs(fs, 0, "request-id", NumberText(r.request), m);
    FieldIs(fs, 1, "cell", Str(r.cell), m);
    FieldIs(fs, 2, "source-revision", NumberText(r.sourceRevision), m);
    FieldIs(fs, 3, "policy-digest", NumberText(r.policyDigest), m);
    FieldIs(fs, 4, "authority-digest", NumberText(r.authorityDigest), m);
    NumberBack(r.request);
    NumberBack(r.sourceRevision);
    NumberBack(r.policyDigest);
    NumberBack(r.authorityDigest);
  }

  lemma ReceiptDependencies(r: Receipt, m: map<string, Expr>)
    requires FieldsOf(EncodeReceipt(r)) == Ok(m)
    ensures VectorField(m, "dependencies") == Ok(EncodeAll(r.dependencies, EncodeStamp))
    ensures WordField(m, "omitted-dependencies") == Ok(r.omittedDependencies)
    ensures WordField(m, "dependency-digest") == Ok(r.dependencyDigest)
    ensures VectorField(m, "effects") == Ok(EncodeAll(r.effects, EncodeEffect))
    ensures WordField(m, "omitted-effects") == Ok(r.omittedEffects)
  {
    ReceiptDistinct(r);
    var fs := ReceiptRecord(r);
    hide FieldsOf, Record, DistinctNames, EncodeAll, EncodeOutcome, ReasonName, TriggerName, ParseWord, ParseOptional, NumberText, OptionalNumber;
    FieldIs(fs, 5, "dependencies", Vector(EncodeAll(r.dependencies, EncodeStamp)), m);
    FieldIs(fs, 6, "omitted-dependencies", NumberText(r.omittedDependencies), m);
    FieldIs(fs, 7, "dependency-digest", NumberText(r.dependencyDigest), m);
    FieldIs(fs, 8, "effects", Vector(EncodeAll(r.effects, EncodeEffect)), m);
    FieldIs(fs, 9, "omitted-effects", NumberText(r.omittedEffects), m);
    NumberBack(r.omittedDependencies);
    NumberBack(r.dependencyDigest);
    NumberBack(r.omittedEffects);
  }

  lemma ReceiptTimes(r: Receipt, m: map<string, Expr>)
    requires FieldsOf(EncodeReceipt(r)) == Ok(m)
    ensures WordField(m, "started-tick") == Ok(r.startedTick)
    ensures WordField(m, "finished-tick") == Ok(r.finishedTick)
    ensures OptionalField(m, "wall-started-ms") == Ok(r.wallStarted)
    ensures OptionalField(m, "wall-finished-ms") == Ok(r.wallFinished)
  {
    ReceiptDistinct(r);
    var fs := ReceiptRecord(r);
    hide FieldsOf, Record, DistinctNames, EncodeAll, EncodeOutcome, ReasonName, TriggerName, ParseWord, ParseOptional, NumberText, OptionalNumber;
    FieldIs(fs, 10, "started-tick", NumberText(r.startedTick), m);
    FieldIs(fs, 11, "finished-tick", NumberText(r.finishedTick), m);
    FieldIs(fs, 12, "wall-started-ms", OptionalNumber(r.wallStarted), m);
    FieldIs(fs, 13, "wall-finished-ms", OptionalNumber(r.wallFinished), m);
    NumberBack(r.startedTick);
    NumberBack(r.finishedTick);
    OptionalBack(r.wallStarted);
    OptionalBack(r.wallFinished);
  }

  lemma ReceiptResult(r: Receipt, m: map<string, Expr>)
    requires FieldsOf(EncodeReceipt(r)) == Ok(m)
    ensures Required(m, "outcome") == Ok(EncodeOutcome(r.outcome))
    ensures OptionalField(m, "result-fingerprint") == Ok(r.resultFingerprint)
    ensures TextField(m, "reason") == Ok(ReasonName(r.reason))
    ensures TextField(m, "trigger") == Ok(TriggerName(r.trigger))
  {
    ReceiptDistinct(r);
    var fs := ReceiptRecord(r);
    hide FieldsOf, Record, DistinctNames, EncodeAll, EncodeOutcome, ReasonName, TriggerName, ParseWord, ParseOptional, NumberText, OptionalNumber;
    FieldIs(fs, 14, "outcome", EncodeOutcome(r.outcome), m);
    FieldIs(fs, 15, "result-fingerprint", OptionalNumber(r.resultFingerprint), m);
    FieldIs(fs, 16, "reason", Str(ReasonName(r.reason)), m);
    FieldIs(fs, 17, "trigger", Str(TriggerName(r.trigger)), m);
    OptionalBack(r.resultFingerprint);
  }

  lemma ReceiptBack(r: Receipt)
    requires ReceiptHeld(r)
    ensures DecodeReceipt(EncodeReceipt(r)) == Ok(r)
  {
    ReceiptDistinct(r);
    RecordBack(ReceiptRecord(r));
    var m := FieldsOf(EncodeReceipt(r)).value;
    hide ReceiptRecord, FieldsOf, Record, WordField, TextField, OptionalField, VectorField, Required, EncodeAll, DecodeAll,
         EncodeOutcome, DecodeOutcome, DecodeReason, ReasonName, DecodeTrigger, TriggerName;
    ReceiptIdentity(r, m);
    ReceiptDependencies(r, m);
    ReceiptTimes(r, m);
    ReceiptResult(r, m);
    forall s | s in r.dependencies ensures DecodeStamp(EncodeStamp(s)) == Ok(s) {
      StampBack(s);
    }
    AllBack(r.dependencies, EncodeStamp, DecodeStamp);
    forall e | e in r.effects ensures DecodeEffect(EncodeEffect(e)) == Ok(e) {
      EffectBack(e);
    }
    AllBack(r.effects, EncodeEffect, DecodeEffect);
    OutcomeBack(r.outcome);
    NamesBack(r.reason, r.trigger);
  }

  /** Receipts are listed and loaded under their own cells. */
  function DecodeReceiptRow(e: Expr): Decoded<(string, Receipt)> {
    var receipt :- DecodeReceipt(e);
    Ok((receipt.cell, receipt))
  }

  function EncodeReceiptRow(row: (string, Receipt)): Expr {
    EncodeReceipt(row.1)
  }

  lemma ReceiptsBack(receipts: map<string, Receipt>)
    requires forall c :: c in receipts ==> receipts[c].cell == c && ReceiptHeld(receipts[c])
    ensures DecodeRows(EncodeAll(Rows(receipts), EncodeReceiptRow), DecodeReceiptRow) == Ok(receipts)
  {
    forall c | c in receipts ensures DecodeReceiptRow(EncodeReceiptRow((c, receipts[c]))) == Ok((c, receipts[c])) {
      ReceiptBack(receipts[c]);
    }
    RowsBack(receipts, EncodeReceiptRow, DecodeReceiptRow);
  }

  // ---- The queue ----

  function SignedText(n: int): string {
    if n < 0 then "-" + Digits(-n) else Digits(n)
  }

  /** Reading a signed 16-bit number. */
  function ParseSigned(s: string): Option<int> {
    var negative := s != "" && s[0] == '-';
    var body := if s != "" && (s[0] == '-' || s[0] == '+') then s[1..] else s;
    if body == "" || !AllDigits(body) then None
    else
      var value: int := DigitsValue(body);
      var n := if negative then -value else value;
      if -32768 <= n <= 32767 then Some(n) else None
  }

  lemma SignedBack(n: int)
    requires -32768 <= n <= 32767
    ensures ParseSigned(SignedText(n)) == Some(n)
  {
    DigitsParse(if n < 0 then -n else n);
    if n < 0 {
      assert SignedText(n)[1..] == Digits(-n);
    }
  }

  function QueuedRecord(q: Queued): seq<Field> {
    [Field("request-id", NumberText(q.request)), Field("cell", Str(q.cell)), Field("ready-at-ms", NumberText(q.readyAt)),
     Field("priority", Str(SignedText(q.priority))), Field("sequence", NumberText(q.sequence)), Field("bypasses", NumberText(q.bypasses)),
     Field("incremental-continuation", match q.continuation case None => Nil case Some(n) => NumberText(n))]
  }

  function EncodeQueued(q: Queued): Expr {
    Record(QueuedRecord(q))
  }

  function DecodeQueued(e: Expr): Decoded<Queued> {
    var fields :- FieldsOf(e);
    var request :- WordField(fields, "request-id");
    var cell :- TextField(fields, "cell");
    var readyAt :- WordField(fields, "ready-at-ms");
    var priorityText :- TextField(fields, "priority");
    var priority :- (match ParseSigned(priorityText) case Some(n) => Ok(n) case None => Err(Corrupt("invalid queue priority")));
    var sequence :- WordField(fields, "sequence");
    var bypasses :- WordField(fields, "bypasses");
    var small :- (if bypasses <= 255 then Ok(bypasses) else Err(Corrupt("invalid queue bypass count")));
    var continuation :- OptionalField(fields, "incremental-continuation");
    Ok(Queued(request, cell, readyAt, priority, sequence, small, continuation))
  }

  /** An entry whose numbers are machine numbers of their widths. */
  predicate QueuedHeld(q: Queued) {
    && q.request <= MAX_U64 && q.readyAt <= MAX_U64 && q.sequence <= MAX_U64 && q.bypasses <= 255
    && -32768 <= q.priority <= 32767 && (q.continuation.Some? ==> q.continuation.value <= MAX_U64)
  }

  lemma QueuedBack(q: Queued)
    requires QueuedHeld(q)
    ensures DecodeQueued(EncodeQueued(q)) == Ok(q)
  {
    var fs := QueuedRecord(q);
    FieldsBack(fs, [OutlineOf("request-id"), OutlineOf("cell"), OutlineOf("ready-at-ms"), OutlineOf("priority"), OutlineOf("sequence"), OutlineOf("bypasses"), OutlineOf("incremental-continuation")]);
    NumberBack(q.request);
    NumberBack(q.readyAt);
    NumberBack(q.sequence);
    NumberBack(q.bypasses);
    if q.continuation.Some? {
      NumberBack(q.continuation.value);
    }
    SignedBack(q.priority);
    hide FieldsOf, Record, Required, ParseWord, NumberText, SignedText, ParseSigned;
    assert fs[0].name == "request-id" && fs[1].name == "cell" && fs[2].name == "ready-at-ms" && fs[3].name == "priority"
           && fs[4].name == "sequence" && fs[5].name == "bypasses" && fs[6].name == "incremental-continuation";
  }

  function QueueRecord(q: QueueSnapshot): seq<Field> {
    [Field("generation", NumberText(q.generation)), Field("next-sequence", NumberText(q.nextSequence)),
     Field("entries", Vector(EncodeAll(q.entries, EncodeQueued)))]
  }

  function EncodeQueue(q: QueueSnapshot): Expr {
    Record(QueueRecord(q))
  }

  function DecodeQueue(e: Expr): Decoded<QueueSnapshot> {
    var fields :- FieldsOf(e);
    var generation :- WordField(fields, "generation");
    var nextSequence :- WordField(fields, "next-sequence");
    var rows :- VectorField(fields, "entries");
    var entries :- DecodeAll(rows, DecodeQueued);
    Ok(QueueSnapshot(generation, nextSequence, entries))
  }

  predicate QueueHeld(q: QueueSnapshot) {
    q.generation <= MAX_U64 && q.nextSequence <= MAX_U64 && forall e | e in q.entries :: QueuedHeld(e)
  }

  lemma QueueBack(q: QueueSnapshot)
    requires QueueHeld(q)
    ensures DecodeQueue(EncodeQueue(q)) == Ok(q)
  {
    var fs := QueueRecord(q);
    FieldsBack(fs, [OutlineOf("generation"), OutlineOf("next-sequence"), OutlineOf("entries")]);
    NumberBack(q.generation);
    NumberBack(q.nextSequence);
    hide FieldsOf, Record, Required, EncodeAll, DecodeAll, ParseWord, NumberText, QueuedHeld;
    assert fs[0].name == "generation" && fs[1].name == "next-sequence" && fs[2].name == "entries";
    forall e | e in q.entries ensures DecodeQueued(EncodeQueued(e)) == Ok(e) {
      QueuedBack(e);
    }
    AllBack(q.entries, EncodeQueued, DecodeQueued);
  }

  // ---- Refresh samples and last-good values ----

  datatype Sample = Sample(epoch: Word, listings: map<string, Word>, stamps: map<string, Word>)

  function KeyValue(key: string, value: Expr): seq<Field> {
    [Field("key", Str(key)), Field("value", value)]
  }

  function DecodeKeyValue(e: Expr): Decoded<(string, Expr)> {
    var fields :- FieldsOf(e);
    var key :- TextField(fields, "key");
    var value :- Required(fields, "value");
    Ok((key, value))
  }

  function EncodeExprRow(row: (string, Expr)): Expr {
    Record(KeyValue(row.0, row.1))
  }

  function EncodeWordRow(row: (string, Word)): Expr {
    Record(KeyValue(row.0, NumberText(row.1)))
  }

  function DecodeWordRow(e: Expr): Decoded<(string, Word)> {
    var row :- DecodeKeyValue(e);
    var n :- ParseWord(row.1);
    Ok((row.0, n))
  }

  lemma KeyValueBack(key: string, value: Expr)
    ensures DecodeKeyValue(Record(KeyValue(key, value))) == Ok((key, value))
  {
    var fs := KeyValue(key, value);
    FieldsBack(fs, [OutlineOf("key"), OutlineOf("value")]);
    hide FieldsOf, Record, Required;
    assert fs[0].name == "key" && fs[1].name == "value";
  }

  ghost function EncodeWordMap(m: map<string, Word>): Expr {
    Vector(EncodeAll(Rows(m), EncodeWordRow))
  }

  function DecodeWordMap(e: Expr): Decoded<map<string, Word>> {
    var rows :- ParseVector(e);
    DecodeRows(rows, DecodeWordRow)
  }

  lemma WordMapBack(m: map<string, Word>)
    ensures DecodeWordMap(EncodeWordMap(m)) == Ok(m)
  {
    hide Record;
    forall k | k in m ensures DecodeWordRow(EncodeWordRow((k, m[k]))) == Ok((k, m[k])) {
      KeyValueBack(k, NumberText(m[k]));
      NumberBack(m[k]);
    }
    hide DecodeWordRow, EncodeWordRow;
    RowsBack(m, EncodeWordRow, DecodeWordRow);
  }

  ghost function EncodeExprMap(m: map<string, Expr>): Expr {
    Vector(EncodeAll(Rows(m), EncodeExprRow))
  }

  function DecodeExprMap(e: Expr): Decoded<map<string, Expr>> {
    var rows :- ParseVector(e);
    DecodeRows(rows, DecodeKeyValue)
  }

  lemma ExprMapBack(m: map<string, Expr>)
    ensures DecodeExprMap(EncodeExprMap(m)) == Ok(m)
  {
    hide Record;
    forall k | k in m ensures DecodeKeyValue(EncodeExprRow((k, m[k]))) == Ok((k, m[k])) {
      KeyValueBack(k, m[k]);
    }
    hide DecodeKeyValue, EncodeExprRow;
    RowsBack(m, EncodeExprRow, DecodeKeyValue);
  }

  ghost function SampleRecord(mount: string, s: Sample): seq<Field> {
    [Field("mount", Str(mount)), Field("epoch", NumberText(s.epoch)), Field("listings", EncodeWordMap(s.listings)),
     Field("stamps", EncodeWordMap(s.stamps))]
  }

  ghost function EncodeSampleRow(row: (string, Sample)): Expr {
    Record(SampleRecord(row.0, row.1))
  }

  function DecodeSampleRow(e: Expr): Decoded<(string, Sample)> {
    var fields :- FieldsOf(e);
    var mount :- TextField(fields, "mount");
    var epoch :- WordField(fields, "epoch");
    var listingsField :- Required(fields, "listings");
    var listings :- DecodeWordMap(listingsField);
    var stampsField :- Required(fields, "stamps");
    var stamps :- DecodeWordMap(stampsField);
    Ok((mount, Sample(epoch, listings, stamps)))
  }

  lemma SampleBack(mount: string, s: Sample)
    ensures DecodeSampleRow(EncodeSampleRow((mount, s))) == Ok((mount, s))
  {
    var fs := SampleRecord(mount, s);
    FieldsBack(fs, [OutlineOf("mount"), OutlineOf("epoch"), OutlineOf("listings"), OutlineOf("stamps")]);
    hide FieldsOf, Record, Required, EncodeWordMap, DecodeWordMap;
    assert fs[0].name == "mount" && fs[1].name == "epoch" && fs[2].name == "listings" && fs[3].name == "stamps";
    NumberBack(s.epoch);
    WordMapBack(s.listings);
    WordMapBack(s.stamps);
  }

  ghost function EncodeSamples(m: map<string, Sample>): Expr {
    Vector(EncodeAll(Rows(m), (row: (string, Sample)) => EncodeSampleRow(row)))
  }

  function DecodeSamples(e: Expr): Decoded<map<string, Sample>> {
    var rows :- ParseVector(e);
    DecodeRows(rows, DecodeSampleRow)
  }

  lemma SamplesBack(m: map<string, Sample>)
    ensures DecodeSamples(EncodeSamples(m)) == Ok(m)
  {
    forall k | k in m ensures DecodeSampleRow(EncodeSampleRow((k, m[k]))) == Ok((k, m[k])) {
      SampleBack(k, m[k]);
    }
    hide DecodeSampleRow, EncodeSampleRow;
    RowsBack(m, (row: (string, Sample)) => EncodeSampleRow(row), DecodeSampleRow);
  }
}
