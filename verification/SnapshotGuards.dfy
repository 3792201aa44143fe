/** What a snapshot must show. */
module SnapshotGuards {
  // Whatever is found in the place of a derived snapshot, written by the calculator or
  // not: what it must be to be taken, and what becomes of one that was altered.

  import opened Syntax
  import opened Texts
  import opened Records
  import opened GraphCodec
  import opened StateCodec
  import opened Scheduling
  import opened Schedulers
  import opened Persistence

  predicate Named(entry: Entry, name: string) {
    entry.key.Sym? && entry.key.symbol.Text() == name
  }

  /** Every key is a symbol and no two read alike. */
  ghost predicate IsRecord(entries: seq<Entry>) {
    && (forall i :: 0 <= i < |entries| ==> entries[i].key.Sym?)
    && (forall i, j :: 0 <= i < j < |entries| ==> entries[i].key.symbol.Text() != entries[j].key.symbol.Text())
  }

  /** The i-th entry has this name and holds this number. */
  ghost predicate NumberAt(entries: seq<Entry>, i: nat, name: string, n: nat) {
    i < |entries| && Named(entries[i], name) && entries[i].value.Str? && ParseNat(entries[i].value.text) == Some(n)
  }

  ghost predicate HasNumber(entries: seq<Entry>, name: string, n: nat) {
    exists i: nat :: NumberAt(entries, i, name, n)
  }

  /** The checksum is the identity of the record without it. */
  ghost predicate SealedAt(entries: seq<Entry>, i: nat, identity: Expr -> Word) {
    i < |entries| && NumberAt(entries, i, "checksum", identity(Map(entries[..i] + entries[i + 1..])))
  }

  // ---- Reading a record ----

  /** The map of a record's fields. */
  ghost predicate Collects(entries: seq<Entry>, fields: map<string, Expr>) {
    && (forall i :: 0 <= i < |entries| ==> entries[i].key.Sym? && entries[i].key.symbol.Text() in fields
                                           && fields[entries[i].key.symbol.Text()] == entries[i].value)
    && (forall name :: name in fields ==> exists i :: 0 <= i < |entries| && Named(entries[i], name))
  }

  lemma {:induction false} RecordMeans(entries: seq<Entry>)
    ensures EntryFields(entries).Ok? <==> IsRecord(entries)
    ensures EntryFields(entries).Err? ==> EntryFields(entries).error.Corrupt?
    ensures EntryFields(entries).Ok? ==> Collects(entries, EntryFields(entries).value)
  {
    hide Symbol.Text;
    if entries != [] {
      var front, last := entries[..|entries| - 1], entries[|entries| - 1];
      RecordMeans(front);
      assert entries == front + [last];
      hide IsRecord, Collects;
      if EntryFields(front).Ok? {
        OneMoreNamed(front, last, EntryFields(front).value);
      } else if IsRecord(front + [last]) {
        PartIsRecord(front, last);
      }
    }
  }

  lemma PartIsRecord(front: seq<Entry>, last: Entry)
    requires IsRecord(front + [last])
    ensures IsRecord(front)
  {
    hide Symbol.Text;
    var all := front + [last];
    assert forall i :: 0 <= i < |front| ==> front[i] == all[i];
  }

  lemma OneMoreNamed(front: seq<Entry>, last: Entry, fields: map<string, Expr>)
    requires IsRecord(front) && Collects(front, fields)
    ensures IsRecord(front + [last]) <==> last.key.Sym? && last.key.symbol.Text() !in fields
    ensures last.key.Sym? && last.key.symbol.Text() !in fields ==> Collects(front + [last], fields[last.key.symbol.Text() := last.value])
  {
    hide Symbol.Text;
    var all := front + [last];
    assert all[|front|] == last && forall i :: 0 <= i < |front| ==> all[i] == front[i];
    if last.key.Sym? {
      var name := last.key.symbol.Text();
      if name in fields {
        var i :| 0 <= i < |front| && Named(front[i], name);
        assert all[i].key.symbol.Text() == all[|front|].key.symbol.Text();
      } else {
        var more := fields[name := last.value];
        forall k | k in more ensures exists i :: 0 <= i < |all| && Named(all[i], k) {
          if k == name {
            assert Named(all[|front|], k);
          } else {
            var i :| 0 <= i < |front| && Named(front[i], k);
            assert Named(all[i], k);
          }
        }
      }
    }
  }

  /** A field is what the entry of that name holds. */
  lemma FieldMeans(entries: seq<Entry>, fields: map<string, Expr>, name: string, i: nat)
    requires IsRecord(entries) && Collects(entries, fields) && i < |entries| && Named(entries[i], name)
    ensures name in fields && fields[name] == entries[i].value
    ensures forall j :: 0 <= j < |entries| && Named(entries[j], name) ==> j == i
  {
    hide Symbol.Text;
    forall j | 0 <= j < |entries| && Named(entries[j], name) ensures j == i {
      assert entries[i].key.symbol.Text() == entries[j].key.symbol.Text();
    }
  }

  /** A number field is read exactly if the record holds that number. */
  lemma WordMeans(entries: seq<Entry>, fields: map<string, Expr>, name: string, n: Word)
    requires IsRecord(entries) && Collects(entries, fields)
    ensures WordField(fields, name) == Ok(n) <==> HasNumber(entries, name, n)
    ensures WordField(fields, name).Err? ==> Corrupted(WordField(fields, name))
  {
    hide Symbol.Text, ParseNat, IsRecord, Collects;
    if name in fields {
      var i := EntryOf(entries, fields, name);
      FieldMeans(entries, fields, name, i);
      if WordField(fields, name) == Ok(n) {
        assert NumberAt(entries, i, name, n);
      }
    }
    if j: nat :| NumberAt(entries, j, name, n) {
      FieldMeans(entries, fields, name, j);
    }
  }

  lemma EntryOf(entries: seq<Entry>, fields: map<string, Expr>, name: string) returns (i: nat)
    requires Collects(entries, fields) && name in fields
    ensures i < |entries| && Named(entries[i], name)
  {
    hide Symbol.Text, Named;
    i :| 0 <= i < |entries| && Named(entries[i], name);
  }

  // ---- The checksum ----

  /** Taking the checksum entry out leaves the others in their order. */
  lemma {:induction false} WithoutIs(entries: seq<Entry>, i: nat)
    requires i < |entries| && Named(entries[i], "checksum")
    requires forall j :: 0 <= j < |entries| && j != i ==> !Named(entries[j], "checksum")
    ensures WithoutChecksum(entries) == entries[..i] + entries[i + 1..]
    decreases |entries|
  {
    hide Symbol.Text;
    if i == 0 {
      NothingToTake(entries[1..]);
    } else {
      WithoutIs(entries[1..], i - 1);
      assert entries[..i] + entries[i + 1..] == [entries[0]] + (entries[1..][..i - 1] + entries[1..][i..]);
    }
  }

  lemma {:induction false} NothingToTake(entries: seq<Entry>)
    requires forall j :: 0 <= j < |entries| ==> !Named(entries[j], "checksum")
    ensures WithoutChecksum(entries) == entries
  {
    hide Symbol.Text;
    if entries != [] {
      NothingToTake(entries[1..]);
    }
  }

  lemma ChecksumMeans(entries: seq<Entry>, fields: map<string, Expr>, identity: Expr -> Word)
    requires IsRecord(entries) && Collects(entries, fields)
    ensures WordField(fields, "checksum") == Ok(identity(Map(WithoutChecksum(entries))))
            <==> exists i: nat :: SealedAt(entries, i, identity)
  {
    WordMeans(entries, fields, "checksum", identity(Map(WithoutChecksum(entries))));
    hide Symbol.Text, ParseNat, IsRecord, Collects, WithoutChecksum, WordField;
    forall i: nat | i < |entries| && Named(entries[i], "checksum") ensures WithoutChecksum(entries) == entries[..i] + entries[i + 1..] {
      FieldMeans(entries, fields, "checksum", i);
      WithoutIs(entries, i);
    }
    var n := identity(Map(WithoutChecksum(entries)));
    if HasNumber(entries, "checksum", n) {
      var i: nat :| NumberAt(entries, i, "checksum", n);
      assert SealedAt(entries, i, identity);
    }
    if i: nat :| SealedAt(entries, i, identity) {
      assert NumberAt(entries, i, "checksum", n);
    }
  }

  // ---- What is taken ----

  /** What a snapshot shows before its tables are read. */
  ghost predicate Genuine(e: Expr, identity: Expr -> Word) {
    e.Map? && IsRecord(e.entries) && HasNumber(e.entries, "schema", GRAPH_SCHEMA_VERSION)
    && exists i: nat :: SealedAt(e.entries, i, identity)
  }

  /** Whatever is read at all is a record of this schema under its own checksum; a
      record of another schema is reported as such; everything else is corrupt. */
  lemma DecodedIsGenuine(e: Expr, identity: Expr -> Word)
    ensures DecodePersisted(e, identity).Ok? ==> Genuine(e, identity)
    ensures forall n: Word :: e.Map? && IsRecord(e.entries) && n != GRAPH_SCHEMA_VERSION && HasNumber(e.entries, "schema", n) ==>
              DecodePersisted(e, identity) == Err(Incompatible)
    ensures !Genuine(e, identity) && !(e.Map? && IsRecord(e.entries) && exists n: Word :: n != GRAPH_SCHEMA_VERSION && HasNumber(e.entries, "schema", n)) ==>
              Corrupted(DecodePersisted(e, identity))
  {
    hide Symbol.Text, ParseNat, Collects, WithoutChecksum, WordField, PersistedOf, VectorField, DecodeAll, HasNumber, IsRecord, EntryFields;
    if e.Map? {
      RecordMeans(e.entries);
      if IsRecord(e.entries) {
        var fields := EntryFields(e.entries).value;
        forall n: Word ensures (WordField(fields, "schema") == Ok(n) <==> HasNumber(e.entries, "schema", n)) {
          WordMeans(e.entries, fields, "schema", n);
        }
        WordMeans(e.entries, fields, "schema", GRAPH_SCHEMA_VERSION);
        WordMeans(e.entries, fields, "checksum", 0);
        ChecksumMeans(e.entries, fields, identity);
      }
    }
  }

  /** Nothing is rehydrated but a record of this schema under its own checksum, written
      for the present sources and controls. */
  lemma HydratedIsGenuine(e: Expr, identity: Expr -> Word, live: Live, engineAccepts: bool)
    requires DispositionOf(Some(e), identity, live, engineAccepts) == Rehydrated
    ensures Genuine(e, identity)
    ensures HasNumber(e.entries, "source-generation", live.sourceGeneration) && HasNumber(e.entries, "control-generation", live.controlGeneration)
    ensures HasNumber(e.entries, "source-identity", live.sourceIdentity) && HasNumber(e.entries, "control-identity", live.controlIdentity)
  {
    DecodedIsGenuine(e, identity);
    hide Genuine;
    DecodedIdentities(e, identity);
  }

  lemma PersistedIdentities(schema: Word, graph: seq<Node>, fields: map<string, Expr>)
    requires PersistedOf(schema, graph, fields).Ok?
    ensures var p := PersistedOf(schema, graph, fields).value;
            && WordField(fields, "source-generation") == Ok(p.sourceGeneration) && WordField(fields, "control-generation") == Ok(p.controlGeneration)
            && WordField(fields, "source-identity") == Ok(p.sourceIdentity) && WordField(fields, "control-identity") == Ok(p.controlIdentity)
  {
    hide WordField, Records.Required, DecodeReverse, DecodeReceipts, DecodeQueue, DecodeSamples, DecodeExprMap;
  }

  lemma DecodedIdentities(e: Expr, identity: Expr -> Word)
    requires DecodePersisted(e, identity).Ok?
    ensures var p := DecodePersisted(e, identity).value;
            && e.Map? && HasNumber(e.entries, "source-generation", p.sourceGeneration) && HasNumber(e.entries, "control-generation", p.controlGeneration)
            && HasNumber(e.entries, "source-identity", p.sourceIdentity) && HasNumber(e.entries, "control-identity", p.controlIdentity)
  {
    SomeGraph(e, identity);
    RecordMeans(e.entries);
    var p, fields := DecodePersisted(e, identity).value, EntryFields(e.entries).value;
    hide DecodePersisted, Collects, WordField, HasNumber, IsRecord, EntryFields, PersistedOf;
    var graph :| PersistedOf(GRAPH_SCHEMA_VERSION, graph, fields) == Ok(p);
    PersistedIdentities(GRAPH_SCHEMA_VERSION, graph, fields);
    WordMeans(e.entries, fields, "source-generation", p.sourceGeneration);
    WordMeans(e.entries, fields, "control-generation", p.controlGeneration);
    WordMeans(e.entries, fields, "source-identity", p.sourceIdentity);
    WordMeans(e.entries, fields, "control-identity", p.controlIdentity);
  }

  lemma SomeGraph(e: Expr, identity: Expr -> Word)
    requires DecodePersisted(e, identity).Ok?
    ensures e.Map? && EntryFields(e.entries).Ok?
    ensures exists graph :: PersistedOf(GRAPH_SCHEMA_VERSION, graph, EntryFields(e.entries).value) == Ok(DecodePersisted(e, identity).value)
  {
    hide Symbol.Text, WithoutChecksum, WordField, VectorField, DecodeAll, EntryFields, PersistedOf;
    var fields := EntryFields(e.entries).value;
    var graph := DecodeAll(VectorField(fields, "graph").value, DecodeNode).value;
    assert PersistedOf(GRAPH_SCHEMA_VERSION, graph, fields) == DecodePersisted(e, identity);
  }

  /** A record whose checksum is not the identity of the rest - a snapshot altered
      anywhere else, as long as the identity tells - is rebuilt, as incompatible if it
      says another schema and as corrupt otherwise. */
  lemma AlteredIsRebuilt(e: Expr, i: nat, checksum: Word, identity: Expr -> Word, live: Live, engineAccepts: bool)
    requires e.Map? && NumberAt(e.entries, i, "checksum", checksum)
    requires identity(Map(e.entries[..i] + e.entries[i + 1..])) != checksum
    ensures DispositionOf(Some(e), identity, live, engineAccepts)
            == if IsRecord(e.entries) && exists n: Word :: n != GRAPH_SCHEMA_VERSION && HasNumber(e.entries, "schema", n)
               then RebuiltIncompatible else RebuiltCorrupt
  {
    DecodedIsGenuine(e, identity);
    hide DecodePersisted, HasNumber, IsRecord, SealedAt, NumberAt;
    if IsRecord(e.entries) {
      NotSealed(e.entries, i, checksum, identity);
    }
  }

  lemma NotSealed(entries: seq<Entry>, i: nat, checksum: Word, identity: Expr -> Word)
    requires IsRecord(entries) && NumberAt(entries, i, "checksum", checksum)
    requires identity(Map(entries[..i] + entries[i + 1..])) != checksum
    ensures forall j: nat :: !SealedAt(entries, j, identity)
  {
    RecordMeans(entries);
    FieldMeans(entries, EntryFields(entries).value, "checksum", i);
    hide Symbol.Text, ParseNat, IsRecord, EntryFields;
  }

  /** A written snapshot altered outside its checksum, and kept under the old one: it is
      not rehydrated unless the altered body has the identity of the one written. */
  lemma AlteredSnapshotIsRebuilt(p: Persisted, identity: Expr -> Word, body: seq<Entry>, live: Live, engineAccepts: bool)
    requires identity(Map(body)) != identity(Record(BodyRecord(p)))
    ensures var altered := Map(body + [Entry(Sym(Symbol(None, "checksum")), NumberText(identity(Record(BodyRecord(p)))))]);
            DispositionOf(Some(altered), identity, live, engineAccepts) in {RebuiltCorrupt, RebuiltIncompatible}
  {
    var checksum := identity(Record(BodyRecord(p)));
    var entries := body + [Entry(Sym(Symbol(None, "checksum")), NumberText(checksum))];
    ParseDigits(checksum);
    assert NumberAt(entries, |body|, "checksum", checksum);
    assert entries[..|body|] + entries[|body| + 1..] == body;
    hide BodyRecord, Record, DispositionOf;
    AlteredIsRebuilt(Map(entries), |body|, checksum, identity, live, engineAccepts);
  }
}
