/** The persisted form of records, numbers and lists as ordinary expression data, and
    reading them back.  A record is a map from symbols to values; a reader collects
    its fields and refuses a name that is no symbol or occurs twice.  The row lists
    that stand for maps are read the same way. */
module Records {
  import opened Collections
  import opened Syntax
  import opened Texts

  datatype DecodeError = Incompatible | Corrupt(what: string)

  type Decoded<T> = Result<T, DecodeError>

  predicate Corrupted<T>(r: Decoded<T>) {
    r.Err? && r.error.Corrupt?
  }

  /** A machine word. */
  type Word = n: nat | n <= MAX_U64

  // ---- Records ----

  datatype Field = Field(name: string, value: Expr)

  function Record(fields: seq<Field>): Expr {
    Map(seq(|fields|, i requires 0 <= i < |fields| => Entry(Sym(Symbol(None, fields[i].name)), fields[i].value)))
  }

  /** record_fields on the entries read so far. */
  function EntryFields(entries: seq<Entry>): Decoded<map<string, Expr>> {
    if entries == [] then Ok(map[])
    else
      var fields :- EntryFields(entries[..|entries| - 1]);
      var last := entries[|entries| - 1];
      if !last.key.Sym? then Err(Corrupt("persisted record key is not a symbol"))
      else if last.key.symbol.Text() in fields then Err(Corrupt("duplicate persisted record field"))
      else Ok(fields[last.key.symbol.Text() := last.value])
  }

  function FieldsOf(e: Expr): Decoded<map<string, Expr>> {
    if e.Map? then EntryFields(e.entries) else Err(Corrupt("expected persisted record"))
  }

  /** record_fields: the loop fills the map and stops at the first bad entry. */
  method RecordFields(e: Expr) returns (r: Decoded<map<string, Expr>>)
    ensures r == FieldsOf(e)
  {
    if !e.Map? {
      return Err(Corrupt("expected persisted record"));
    }
    var fields: map<string, Expr> := map[];
    for i := 0 to |e.entries|
      invariant EntryFields(e.entries[..i]) == Ok(fields)
    {
      var entry := e.entries[i];
      assert e.entries[..i + 1][..i] == e.entries[..i];
      if !entry.key.Sym? {
        FailureStays(e.entries, i + 1);
        return Err(Corrupt("persisted record key is not a symbol"));
      }
      var key := entry.key.symbol.Text();
      if key in fields {
        FailureStays(e.entries, i + 1);
        return Err(Corrupt("duplicate persisted record field"));
      }
      fields := fields[key := entry.value];
    }
    assert e.entries[..|e.entries|] == e.entries;
    return Ok(fields);
  }

  lemma {:induction false} FailureStays(entries: seq<Entry>, n: nat)
    requires n <= |entries| && EntryFields(entries[..n]).Err?
    ensures EntryFields(entries) == EntryFields(entries[..n])
    decreases |entries|
  {
    if n == |entries| {
      assert entries[..n] == entries;
    } else {
      assert entries[..|entries| - 1][..n] == entries[..n];
      FailureStays(entries[..|entries| - 1], n);
    }
  }

  function Required(fields: map<string, Expr>, key: string): Decoded<Expr> {
    if key in fields then Ok(fields[key]) else Err(Corrupt("missing persisted field " + key))
  }

  ghost predicate DistinctNames(fields: seq<Field>) {
    forall i, j :: 0 <= i < j < |fields| ==> fields[i].name != fields[j].name
  }

  /** A record with distinct names reads back field by field. */
  lemma {:induction false} RecordBack(fields: seq<Field>)
    requires DistinctNames(fields)
    ensures FieldsOf(Record(fields)).Ok?
    ensures var m := FieldsOf(Record(fields)).value;
            && (forall i :: 0 <= i < |fields| ==> fields[i].name in m && m[fields[i].name] == fields[i].value)
            && (forall k :: k in m ==> exists i :: 0 <= i < |fields| && fields[i].name == k)
  {
    if fields != [] {
      var front, last := fields[..|fields| - 1], fields[|fields| - 1];
      RecordBack(front);
      var entries := Record(fields).entries;
      assert entries[..|entries| - 1] == Record(front).entries;
      assert entries[|entries| - 1].key.symbol.Text() == last.name;
      assert forall i :: 0 <= i < |front| ==> front[i] == fields[i];
    }
  }

  lemma FieldIs(fields: seq<Field>, i: nat, name: string, value: Expr, m: map<string, Expr>)
    requires DistinctNames(fields) && i < |fields| && fields[i] == Field(name, value) && FieldsOf(Record(fields)) == Ok(m)
    ensures Required(m, name) == Ok(value)
  {
    RecordBack(fields);
  }

  /** The length of a name and the characters at its ends.  The field names of each
      record of the snapshot differ in these. */
  datatype Outline = Outline(length: nat, first: char, last: char)

  function OutlineOf(name: string): Outline {
    if name == "" then Outline(0, ' ', ' ') else Outline(|name|, name[0], name[|name| - 1])
  }

  lemma OutlinesDiffer(fields: seq<Field>, outlines: seq<Outline>)
    requires |fields| == |outlines|
    requires forall i :: 0 <= i < |fields| ==> OutlineOf(fields[i].name) == outlines[i]
    requires forall i, j :: 0 <= i < j < |outlines| ==> outlines[i] != outlines[j]
    ensures DistinctNames(fields)
  {
  }

  // ---- Scalars ----

  function NumberText(n: nat): Expr {
    Str(Digits(n))
  }

  function ParseText(e: Expr): Decoded<string> {
    if e.Str? then Ok(e.text) else Err(Corrupt("expected persisted text"))
  }

  function ParseWord(e: Expr): Decoded<Word> {
    var text :- ParseText(e);
    match ParseNat(text) case Some(n) => Ok(n) case None => Err(Corrupt("invalid persisted integer"))
  }

  function OptionalNumber(n: Option<Word>): Expr {
    match n case Some(w) => NumberText(w) case None => Nil
  }

  function ParseOptional(e: Expr): Decoded<Option<Word>> {
    if e.Nil? then Ok(None)
    else
      var n :- ParseWord(e);
      Ok(Some(n))
  }

  function ParseBool(e: Expr): Decoded<bool> {
    if e.Bool? then Ok(e.truth) else Err(Corrupt("expected persisted boolean"))
  }

  function ParseVector(e: Expr): Decoded<seq<Expr>> {
    if e.Vector? then Ok(e.items) else Err(Corrupt("expected persisted vector"))
  }

  lemma NumberBack(n: Word)
    ensures ParseWord(NumberText(n)) == Ok(n) && ParseOptional(NumberText(n)) == Ok(Some(n))
  {
    ParseDigits(n);
  }

  lemma OptionalBack(n: Option<Word>)
    ensures ParseOptional(OptionalNumber(n)) == Ok(n)
  {
    if n.Some? {
      NumberBack(n.value);
    }
  }

  // ---- Lists and maps of rows ----

  function EncodeAll<T>(xs: seq<T>, encode: T -> Expr): seq<Expr> {
    seq(|xs|, i requires 0 <= i < |xs| => encode(xs[i]))
  }

  function DecodeAll<T>(es: seq<Expr>, decode: Expr -> Decoded<T>): Decoded<seq<T>> {
    if es == [] then Ok([])
    else
      var front :- DecodeAll(es[..|es| - 1], decode);
      var last :- decode(es[|es| - 1]);
      Ok(front + [last])
  }

  lemma {:induction false} AllBack<T>(xs: seq<T>, encode: T -> Expr, decode: Expr -> Decoded<T>)
    requires forall x :: x in xs ==> decode(encode(x)) == Ok(x)
    ensures DecodeAll(EncodeAll(xs, encode), decode) == Ok(xs)
  {
    if xs != [] {
      var front := xs[..|xs| - 1];
      AllBack(front, encode, decode);
      assert EncodeAll(xs, encode)[..|xs| - 1] == EncodeAll(front, encode);
      assert xs == front + [xs[|xs| - 1]];
    }
  }

  /** Rows into a map; a repeated key is refused. */
  function DecodeRows<K(==), V>(es: seq<Expr>, decode: Expr -> Decoded<(K, V)>): Decoded<map<K, V>> {
    if es == [] then Ok(map[])
    else
      var front :- DecodeRows(es[..|es| - 1], decode);
      var row :- decode(es[|es| - 1]);
      if row.0 in front then Err(Corrupt("duplicate persisted key")) else Ok(front[row.0 := row.1])
  }

  /** The loop of the map decoders. */
  method LoadRows<K(==), V>(es: seq<Expr>, decode: Expr -> Decoded<(K, V)>) returns (r: Decoded<map<K, V>>)
    ensures r == DecodeRows(es, decode)
  {
    var values: map<K, V> := map[];
    for i := 0 to |es|
      invariant DecodeRows(es[..i], decode) == Ok(values)
    {
      assert es[..i + 1][..i] == es[..i];
      var row := decode(es[i]);
      if row.Err? {
        RowFailureStays(es, i + 1, decode);
        return Err(row.error);
      }
      if row.value.0 in values {
        RowFailureStays(es, i + 1, decode);
        return Err(Corrupt("duplicate persisted key"));
      }
      values := values[row.value.0 := row.value.1];
    }
    assert es[..|es|] == es;
    return Ok(values);
  }

  lemma {:induction false} RowFailureStays<K, V>(es: seq<Expr>, n: nat, decode: Expr -> Decoded<(K, V)>)
    requires n <= |es| && DecodeRows(es[..n], decode).Err?
    ensures DecodeRows(es, decode) == DecodeRows(es[..n], decode)
    decreases |es|
  {
    if n == |es| {
      assert es[..n] == es;
    } else {
      assert es[..|es| - 1][..n] == es[..n];
      RowFailureStays(es[..|es| - 1], n, decode);
    }
  }

  /** The elements of a finite set in some fixed order. */
  ghost function Listed<T>(s: set<T>): (l: seq<T>)
    ensures forall x :: x in s ==> x in l
    ensures forall x :: x in l ==> x in s
    ensures forall i, j :: 0 <= i < j < |l| ==> l[i] != l[j]
    decreases |s|
  {
    if s == {} then []
    else
      var x :| x in s;
      [x] + Listed(s - {x})
  }

  ghost function Rows<K, V>(m: map<K, V>): seq<(K, V)> {
    seq(|Listed(m.Keys)|, i requires 0 <= i < |Listed(m.Keys)| => (Listed(m.Keys)[i], m[Listed(m.Keys)[i]]))
  }

  /** A map listed row by row reads back as it was. */
  lemma RowsBack<K, V>(m: map<K, V>, encode: ((K, V)) -> Expr, decode: Expr -> Decoded<(K, V)>)
    requires forall k :: k in m ==> decode(encode((k, m[k]))) == Ok((k, m[k]))
    ensures DecodeRows(EncodeAll(Rows(m), encode), decode) == Ok(m)
  {
    var keys, rows := Listed(m.Keys), Rows(m);
    forall i | 0 <= i < |rows| ensures rows[i].0 in m && rows[i].1 == m[rows[i].0] && decode(encode(rows[i])) == Ok(rows[i]) {
      assert keys[i] in m.Keys;
    }
    hide Listed;
    RowListBack(rows, encode, decode);
    var back := DecodeRows(EncodeAll(rows, encode), decode).value;
    forall k | k in m ensures k in back && back[k] == m[k] {
      assert k in keys;
      var i :| 0 <= i < |keys| && keys[i] == k;
      assert rows[i].0 == k;
    }
    SameMap(back, m);
  }

  lemma {:induction false} RowListBack<K, V>(rows: seq<(K, V)>, encode: ((K, V)) -> Expr, decode: Expr -> Decoded<(K, V)>)
    requires forall i :: 0 <= i < |rows| ==> decode(encode(rows[i])) == Ok(rows[i])
    requires forall i, j :: 0 <= i < j < |rows| ==> rows[i].0 != rows[j].0
    ensures var back := DecodeRows(EncodeAll(rows, encode), decode);
            && back.Ok?
            && (forall i :: 0 <= i < |rows| ==> rows[i].0 in back.value && back.value[rows[i].0] == rows[i].1)
            && (forall k :: k in back.value ==> exists i :: 0 <= i < |rows| && rows[i].0 == k)
  {
    if rows != [] {
      var front, last := rows[..|rows| - 1], rows[|rows| - 1];
      RowListBack(front, encode, decode);
      assert EncodeAll(rows, encode)[..|rows| - 1] == EncodeAll(front, encode);
      assert forall i :: 0 <= i < |front| ==> front[i] == rows[i];
    }
  }
}
