/** The canonical text of an expedition book: length-prefixed fields, printed and
    read back in the same order. */
module BookCodec {
  import opened Syntax
  import opened Texts

  datatype EvidenceRef = EvidenceRef(kind: string, contentKey: string)

  datatype Objection = Objection(id: string, statement: string, evidence: seq<EvidenceRef>)

  datatype Branch = Branch(
    id: string, parent: Option<string>, thesis: string, evidence: seq<EvidenceRef>,
    objections: map<string, Objection>, nextPlay: Option<string>, isSealed: bool)

  datatype Book = Book(id: string, revision: nat, branches: map<string, Branch>, choice: Option<string>)

  datatype CodecError = UnsupportedVersion(version: string) | Malformed(what: string)

  const HEADER := "expedition-book/v1"

  // ---- Fields ----

  function Field(value: string): string {
    Digits(|value|) + ":" + value
  }

  function OrEmpty(value: Option<string>): string {
    match value case Some(text) => text case None => ""
  }

  function EmptyIsNone(text: string): Option<string> {
    if text == "" then None else Some(text)
  }

  /** The position of the first colon, or the length of the text. */
  function ColonAt(s: string): (n: nat)
    ensures n <= |s| && ':' !in s[..n] && (n < |s| ==> s[n] == ':')
  {
    if s == "" || s[0] == ':' then 0 else 1 + ColonAt(s[1..])
  }

  /** Texts are byte strings of UTF-8; a continuation byte begins no character. */
  predicate Continuation(c: char) {
    0x80 <= c as int < 0xC0
  }

  /** A text may be cut here. */
  predicate Boundary(s: string, n: nat)
    requires n <= |s|
  {
    n == 0 || n == |s| || !Continuation(s[n])
  }

  /** The text begins with a character or is empty. */
  predicate Starts(s: string) {
    s == "" || !Continuation(s[0])
  }

  function TakeField(s: string): Result<(string, string), CodecError> {
    var colon := ColonAt(s);
    if colon == |s| then Err(Malformed("missing field length"))
    else
      match ParseNat(s[..colon])
      case None => Err(Malformed("invalid field length"))
      case Some(len) =>
        var rest := s[colon + 1..];
        if |rest| < len || !Boundary(rest, len) then Err(Malformed("truncated field")) else Ok((rest[..len], rest[len..]))
  }

  function TakeNumber(s: string, what: string): Result<(nat, string), CodecError> {
    match TakeField(s)
    case Err(e) => Err(e)
    case Ok((text, rest)) =>
      match ParseNat(text) case None => Err(Malformed(what)) case Some(n) => Ok((n, rest))
  }

  lemma {:induction false} ColonAfter(a: string, b: string)
    requires ':' !in a
    ensures ColonAt(a + ":" + b) == |a|
  {
    var s := a + ":" + b;
    if a != "" {
      ColonAfter(a[1..], b);
      assert s[1..] == a[1..] + ":" + b;
    }
  }

  /** A field begins with a digit. */
  lemma FieldStarts(value: string, rest: string)
    ensures Starts(Field(value) + rest)
  {
    DigitsParse(|value|);
    assert '0' <= (Field(value) + rest)[0] <= '9';
  }

  /** A field is read back and the text after it is left. */
  lemma TakeBack(value: string, rest: string)
    requires |value| <= MAX_U64 && Starts(rest)
    ensures TakeField(Field(value) + rest) == Ok((value, rest))
  {
    var s := Field(value) + rest;
    assert s == Digits(|value|) + ":" + (value + rest);
    ParseDigits(|value|);
    ColonAfter(Digits(|value|), value + rest);
    assert s[..|Digits(|value|)|] == Digits(|value|);
    assert s[|Digits(|value|)| + 1..] == value + rest;
    assert (value + rest)[..|value|] == value && (value + rest)[|value|..] == rest;
  }

  lemma TakeNumberBack(n: nat, rest: string, what: string)
    requires n <= MAX_U64 && Starts(rest)
    ensures TakeNumber(Field(Digits(n)) + rest, what) == Ok((n, rest))
  {
    DigitsShort(n);
    TakeBack(Digits(n), rest);
    ParseDigits(n);
  }

  // ---- The text of a book, followed by any text ----

  function RefsThen(refs: seq<EvidenceRef>, rest: string): string {
    if refs == [] then rest else Field(refs[0].kind) + (Field(refs[0].contentKey) + RefsThen(refs[1..], rest))
  }

  function ObjectionThen(o: Objection, rest: string): string {
    Field(o.id) + (Field(o.statement) + (Field(Digits(|o.evidence|)) + RefsThen(o.evidence, rest)))
  }

  function ObjectionsThen(os: seq<Objection>, rest: string): string {
    if os == [] then rest else ObjectionThen(os[0], ObjectionsThen(os[1..], rest))
  }

  ghost function BranchThen(b: Branch, rest: string): string {
    Field(b.id) + (Field(OrEmpty(b.parent)) + (Field(b.thesis) + (Field(OrEmpty(b.nextPlay)) + (Field(if b.isSealed then "1" else "0")
    + (Field(Digits(|b.evidence|)) + RefsThen(b.evidence,
         Field(Digits(|b.objections|)) + ObjectionsThen(ValuesInOrder(b.objections), rest)))))))
  }

  ghost function BranchesThen(bs: seq<Branch>, rest: string): string {
    if bs == [] then rest else BranchThen(bs[0], BranchesThen(bs[1..], rest))
  }

  ghost function BookText(b: Book): string {
    HEADER + (Field(b.id) + (Field(Digits(b.revision)) + (Field(OrEmpty(b.choice))
    + (Field(Digits(|b.branches|)) + BranchesThen(ValuesInOrder(b.branches), "")))))
  }

  // ---- Reading ----

  function TakeRefs(n: nat, s: string): Result<(seq<EvidenceRef>, string), CodecError> {
    if n == 0 then Ok(([], s))
    else
      match TakeField(s)
      case Err(e) => Err(e)
      case Ok((kind, s1)) =>
        match TakeField(s1)
        case Err(e) => Err(e)
        case Ok((key, s2)) =>
          match TakeRefs(n - 1, s2)
          case Err(e) => Err(e)
          case Ok((refs, s3)) => Ok(([EvidenceRef(kind, key)] + refs, s3))
  }

  function TakeObjection(s: string): Result<(Objection, string), CodecError> {
    match TakeField(s)
    case Err(e) => Err(e)
    case Ok((id, s1)) =>
      match TakeField(s1)
      case Err(e) => Err(e)
      case Ok((statement, s2)) =>
        match TakeNumber(s2, "objection reference count")
        case Err(e) => Err(e)
        case Ok((n, s3)) =>
          match TakeRefs(n, s3)
          case Err(e) => Err(e)
          case Ok((refs, s4)) => Ok((Objection(id, statement, refs), s4))
  }

  /** Objections are entered under their own ids; a repeated id overwrites. */
  function TakeObjections(n: nat, s: string, read: map<string, Objection>): Result<(map<string, Objection>, string), CodecError> {
    if n == 0 then Ok((read, s))
    else
      match TakeObjection(s)
      case Err(e) => Err(e)
      case Ok((o, s1)) => TakeObjections(n - 1, s1, read[o.id := o])
  }

  function TakeBranch(s: string): Result<(Branch, string), CodecError> {
    match TakeField(s)
    case Err(e) => Err(e)
    case Ok((id, s1)) =>
      match TakeField(s1)
      case Err(e) => Err(e)
      case Ok((parent, s2)) =>
        match TakeField(s2)
        case Err(e) => Err(e)
        case Ok((thesis, s3)) =>
          match TakeField(s3)
          case Err(e) => Err(e)
          case Ok((play, s4)) =>
            match TakeField(s4)
            case Err(e) => Err(e)
            case Ok((flag, s5)) => TakeBranchTail(Branch(id, EmptyIsNone(parent), thesis, [], map[], EmptyIsNone(play), flag == "1"), s5)
  }

  /** The evidence and the objections of a branch. */
  function TakeBranchTail(b: Branch, s: string): Result<(Branch, string), CodecError> {
    match TakeNumber(s, "reference count")
    case Err(e) => Err(e)
    case Ok((n, s1)) =>
      match TakeRefs(n, s1)
      case Err(e) => Err(e)
      case Ok((refs, s2)) =>
        match TakeNumber(s2, "objection count")
        case Err(e) => Err(e)
        case Ok((m, s3)) =>
          match TakeObjections(m, s3, map[])
          case Err(e) => Err(e)
          case Ok((objections, s4)) => Ok((b.(evidence := refs, objections := objections), s4))
  }

  function TakeBranches(n: nat, s: string, read: map<string, Branch>): Result<(map<string, Branch>, string), CodecError> {
    if n == 0 then Ok((read, s))
    else
      match TakeBranch(s)
      case Err(e) => Err(e)
      case Ok((b, s1)) => TakeBranches(n - 1, s1, read[b.id := b])
  }

  /** How many characters begin in a text. */
  function Characters(s: string): nat {
    if s == "" then 0 else (if Continuation(s[0]) then 0 else 1) + Characters(s[1..])
  }

  /** Where the first n characters end. */
  function CharactersEnd(s: string, n: nat): (end: nat)
    ensures end <= |s|
    decreases |s|
  {
    if s == "" || (n == 0 && !Continuation(s[0])) then 0
    else 1 + CharactersEnd(s[1..], if Continuation(s[0]) then n else n - 1)
  }

  /** The cut falls between characters, keeps as many as allowed, and keeps all of
      them exactly if there are no more. */
  lemma {:induction false} CutKeepsCharacters(s: string, n: nat)
    ensures var end := CharactersEnd(s, n);
            && Boundary(s, end)
            && Characters(s[..end]) == (if Characters(s) <= n then Characters(s) else n)
            && (end == |s| <==> Characters(s) <= n)
    decreases |s|
  {
    if s != "" && !(n == 0 && !Continuation(s[0])) {
      var fewer := if Continuation(s[0]) then n else n - 1;
      CutKeepsCharacters(s[1..], fewer);
      var end := CharactersEnd(s, n);
      assert s[..end][1..] == s[1..][..end - 1];
    }
  }

  /** What the refusal of an unknown header reports: up to eight characters after
      the first digit. */
  function VersionAfter(s: string): string {
    if s == "" then "unversio" else if '0' <= s[0] <= '9' then s[1..][..CharactersEnd(s[1..], 8)] else VersionAfter(s[1..])
  }

  function BookOf(s: string): Result<Book, CodecError> {
    if !(HEADER <= s) then Err(UnsupportedVersion(VersionAfter(s)))
    else
      match TakeField(s[|HEADER|..])
      case Err(e) => Err(e)
      case Ok((id, s1)) =>
        match TakeNumber(s1, "revision")
        case Err(e) => Err(e)
        case Ok((revision, s2)) =>
          match TakeField(s2)
          case Err(e) => Err(e)
          case Ok((choice, s3)) =>
            match TakeNumber(s3, "branch count")
            case Err(e) => Err(e)
            case Ok((count, s4)) =>
              match TakeBranches(count, s4, map[])
              case Err(e) => Err(e)
              case Ok((branches, s5)) =>
                if s5 != "" then Err(Malformed("trailing bytes"))
                else Ok(Book(id, revision, branches, EmptyIsNone(choice)))
  }

  // ---- What a text can hold ----

  /** Lengths and counts are machine words. */
  predicate Held(s: string) {
    |s| <= MAX_U64
  }

  predicate OptionHeld(s: Option<string>) {
    s.Some? ==> Held(s.value)
  }

  predicate CountHeld(n: nat) {
    n <= MAX_U64
  }

  predicate RefsHeld(refs: seq<EvidenceRef>) {
    CountHeld(|refs|) && forall i :: 0 <= i < |refs| ==> Held(refs[i].kind) && Held(refs[i].contentKey)
  }

  predicate ObjectionHeld(o: Objection) {
    Held(o.id) && Held(o.statement) && RefsHeld(o.evidence)
  }

  predicate BranchHeld(b: Branch) {
    && Held(b.id) && OptionHeld(b.parent) && Held(b.thesis) && OptionHeld(b.nextPlay) && RefsHeld(b.evidence)
    && CountHeld(|b.objections|) && forall k | k in b.objections :: ObjectionHeld(b.objections[k])
  }

  predicate BookHeld(b: Book) {
    && Held(b.id) && CountHeld(b.revision) && OptionHeld(b.choice) && CountHeld(|b.branches|)
    && forall k | k in b.branches :: BranchHeld(b.branches[k])
  }

  // ---- What survives the text ----

  /** Maps are rebuilt under stored ids. */
  function ObjectionsLoaded(os: seq<Objection>, read: map<string, Objection>): map<string, Objection> {
    if os == [] then read else ObjectionsLoaded(os[1..], read[os[0].id := os[0]])
  }

  function BranchesLoaded(bs: seq<Branch>, read: map<string, Branch>): map<string, Branch> {
    if bs == [] then read else BranchesLoaded(bs[1..], read[bs[0].id := bs[0]])
  }

  /** An empty name in an optional place becomes no name. */
  function Unblanked(value: Option<string>): Option<string> {
    EmptyIsNone(OrEmpty(value))
  }

  ghost function BranchKept(b: Branch): Branch {
    b.(parent := Unblanked(b.parent), nextPlay := Unblanked(b.nextPlay), objections := ObjectionsLoaded(ValuesInOrder(b.objections), map[]))
  }

  ghost function BranchesKept(bs: seq<Branch>): (kept: seq<Branch>)
    ensures |kept| == |bs|
  {
    seq(|bs|, i requires 0 <= i < |bs| => BranchKept(bs[i]))
  }

  ghost function BookKept(b: Book): Book {
    b.(choice := Unblanked(b.choice), branches := BranchesLoaded(BranchesKept(ValuesInOrder(b.branches)), map[]))
  }

  // ---- Reading what was printed ----

  lemma RefsStart(refs: seq<EvidenceRef>, rest: string)
    requires Starts(rest)
    ensures Starts(RefsThen(refs, rest))
  {
    if refs != [] {
      FieldStarts(refs[0].kind, Field(refs[0].contentKey) + RefsThen(refs[1..], rest));
    }
  }

  lemma ObjectionsStart(os: seq<Objection>, rest: string)
    requires Starts(rest)
    ensures Starts(ObjectionsThen(os, rest))
  {
    if os != [] {
      FieldStarts(os[0].id, Field(os[0].statement) + (Field(Digits(|os[0].evidence|)) + RefsThen(os[0].evidence, ObjectionsThen(os[1..], rest))));
    }
  }

  lemma BranchesStart(bs: seq<Branch>, rest: string)
    requires Starts(rest)
    ensures Starts(BranchesThen(bs, rest))
  {
    hide Field, Continuation, RefsThen, ObjectionsThen;
    forall value, more ensures Starts(Field(value) + more) {
      FieldStarts(value, more);
    }
  }

  lemma {:induction false} RefsBack(refs: seq<EvidenceRef>, rest: string)
    requires Starts(rest)
    requires forall i :: 0 <= i < |refs| ==> Held(refs[i].kind) && Held(refs[i].contentKey)
    ensures TakeRefs(|refs|, RefsThen(refs, rest)) == Ok((refs, rest))
  {
    hide TakeField, Field, Starts;
    if refs != [] {
      FieldStarts(refs[0].contentKey, RefsThen(refs[1..], rest));
      RefsStart(refs[1..], rest);
      TakeBack(refs[0].kind, Field(refs[0].contentKey) + RefsThen(refs[1..], rest));
      TakeBack(refs[0].contentKey, RefsThen(refs[1..], rest));
      RefsBack(refs[1..], rest);
      assert refs == [refs[0]] + refs[1..];
    }
  }

  lemma ObjectionBack(o: Objection, rest: string)
    requires ObjectionHeld(o) && Starts(rest)
    ensures TakeObjection(ObjectionThen(o, rest)) == Ok((o, rest))
  {
    hide TakeField, Field, TakeNumber, TakeRefs, RefsThen, Starts;
    var evidence := RefsThen(o.evidence, rest);
    RefsStart(o.evidence, rest);
    FieldStarts(Digits(|o.evidence|), evidence);
    FieldStarts(o.statement, Field(Digits(|o.evidence|)) + evidence);
    TakeBack(o.id, Field(o.statement) + (Field(Digits(|o.evidence|)) + evidence));
    TakeBack(o.statement, Field(Digits(|o.evidence|)) + evidence);
    TakeNumberBack(|o.evidence|, evidence, "objection reference count");
    RefsBack(o.evidence, rest);
  }

  lemma {:induction false} ObjectionsBack(os: seq<Objection>, rest: string, read: map<string, Objection>)
    requires Starts(rest) && forall i :: 0 <= i < |os| ==> ObjectionHeld(os[i])
    ensures TakeObjections(|os|, ObjectionsThen(os, rest), read) == Ok((ObjectionsLoaded(os, read), rest))
  {
    hide TakeObjection, ObjectionThen, ObjectionHeld, Starts;
    if os != [] {
      ObjectionsStart(os[1..], rest);
      ObjectionBack(os[0], ObjectionsThen(os[1..], rest));
      ObjectionsBack(os[1..], rest, read[os[0].id := os[0]]);
    }
  }

  lemma BranchTailBack(b: Branch, head: Branch, rest: string)
    requires BranchHeld(b) && Starts(rest)
    ensures TakeBranchTail(head, Field(Digits(|b.evidence|)) + RefsThen(b.evidence,
                             Field(Digits(|b.objections|)) + ObjectionsThen(ValuesInOrder(b.objections), rest)))
            == Ok((head.(evidence := b.evidence, objections := ObjectionsLoaded(ValuesInOrder(b.objections), map[])), rest))
  {
    hide TakeField, Field, TakeNumber, TakeRefs, RefsThen, TakeObjections, ObjectionsThen, ObjectionsLoaded, Starts;
    var os := ValuesInOrder(b.objections);
    var after := ObjectionsThen(os, rest);
    ObjectionsStart(os, rest);
    FieldStarts(Digits(|b.objections|), after);
    RefsStart(b.evidence, Field(Digits(|b.objections|)) + after);
    TakeNumberBack(|b.evidence|, RefsThen(b.evidence, Field(Digits(|b.objections|)) + after), "reference count");
    RefsBack(b.evidence, Field(Digits(|b.objections|)) + after);
    TakeNumberBack(|b.objections|, after, "objection count");
    forall i | 0 <= i < |os| ensures ObjectionHeld(os[i]) {
      ValueAt(b.objections, i);
    }
    ObjectionsBack(os, rest, map[]);
  }

  lemma BranchBack(b: Branch, rest: string)
    requires BranchHeld(b) && Starts(rest)
    ensures TakeBranch(BranchThen(b, rest)) == Ok((BranchKept(b), rest))
  {
    hide TakeField, Field, TakeBranchTail, RefsThen, ObjectionsThen, ObjectionsLoaded, Starts;
    var flag := if b.isSealed then "1" else "0";
    var tail := Field(Digits(|b.evidence|)) + RefsThen(b.evidence,
                  Field(Digits(|b.objections|)) + ObjectionsThen(ValuesInOrder(b.objections), rest));
    FieldStarts(Digits(|b.evidence|), RefsThen(b.evidence, Field(Digits(|b.objections|)) + ObjectionsThen(ValuesInOrder(b.objections), rest)));
    FieldStarts(flag, tail);
    FieldStarts(OrEmpty(b.nextPlay), Field(flag) + tail);
    FieldStarts(b.thesis, Field(OrEmpty(b.nextPlay)) + (Field(flag) + tail));
    FieldStarts(OrEmpty(b.parent), Field(b.thesis) + (Field(OrEmpty(b.nextPlay)) + (Field(flag) + tail)));
    TakeBack(flag, tail);
    TakeBack(OrEmpty(b.nextPlay), Field(flag) + tail);
    TakeBack(b.thesis, Field(OrEmpty(b.nextPlay)) + (Field(flag) + tail));
    TakeBack(OrEmpty(b.parent), Field(b.thesis) + (Field(OrEmpty(b.nextPlay)) + (Field(flag) + tail)));
    TakeBack(b.id, Field(OrEmpty(b.parent)) + (Field(b.thesis) + (Field(OrEmpty(b.nextPlay)) + (Field(flag) + tail))));
    var head := Branch(b.id, Unblanked(b.parent), b.thesis, [], map[], Unblanked(b.nextPlay), flag == "1");
    BranchTailBack(b, head, rest);
  }

  lemma {:induction false} BranchesBack(bs: seq<Branch>, rest: string, read: map<string, Branch>)
    requires Starts(rest) && forall i :: 0 <= i < |bs| ==> BranchHeld(bs[i])
    ensures TakeBranches(|bs|, BranchesThen(bs, rest), read) == Ok((BranchesLoaded(BranchesKept(bs), read), rest))
    decreases |bs|
  {
    hide TakeBranch, BranchThen, BranchHeld, BranchKept, Starts;
    if bs != [] {
      BranchesStart(bs[1..], rest);
      BranchBack(bs[0], BranchesThen(bs[1..], rest));
      BranchIdKept(bs[0]);
      BranchesBack(bs[1..], rest, read[bs[0].id := BranchKept(bs[0])]);
      assert BranchesKept(bs)[1..] == BranchesKept(bs[1..]);
    }
  }

  lemma BranchIdKept(b: Branch)
    ensures BranchKept(b).id == b.id
  {
  }

  /** Reading the text of any book gives what the text can keep of it. */
  lemma BookBack(b: Book)
    requires BookHeld(b)
    ensures BookOf(BookText(b)) == Ok(BookKept(b))
  {
    hide TakeField, Field, TakeNumber, TakeBranches, BranchesThen, BranchesLoaded, BranchHeld, BranchesKept;
    var bs := ValuesInOrder(b.branches);
    var branches := BranchesThen(bs, "");
    var count := Field(Digits(|b.branches|)) + branches;
    forall i | 0 <= i < |bs| ensures BranchHeld(bs[i]) {
      ValueAt(b.branches, i);
    }
    BranchesStart(bs, "");
    FieldStarts(Digits(|b.branches|), branches);
    FieldStarts(OrEmpty(b.choice), count);
    FieldStarts(Digits(b.revision), Field(OrEmpty(b.choice)) + count);
    BranchesBack(bs, "", map[]);
    TakeNumberBack(|b.branches|, branches, "branch count");
    TakeBack(OrEmpty(b.choice), count);
    TakeNumberBack(b.revision, Field(OrEmpty(b.choice)) + count, "revision");
    TakeBack(b.id, Field(Digits(b.revision)) + (Field(OrEmpty(b.choice)) + count));
    assert BookText(b)[|HEADER|..] == Field(b.id) + (Field(Digits(b.revision)) + (Field(OrEmpty(b.choice)) + count));
  }

  // ---- When nothing is lost ----

  /** Every map key is the id stored under it. */
  ghost predicate Keyed(b: Book) {
    && (forall k :: k in b.branches ==> b.branches[k].id == k)
    && (forall k, o :: k in b.branches && o in b.branches[k].objections ==> b.branches[k].objections[o].id == o)
  }

  /** No optional name is present but empty. */
  ghost predicate NoBlanks(b: Book) {
    b.choice != Some("") && forall k :: k in b.branches ==> b.branches[k].parent != Some("") && b.branches[k].nextPlay != Some("")
  }

  lemma {:induction false} ObjectionsLoadedHas(os: seq<Objection>, read: map<string, Objection>)
    ensures var all := ObjectionsLoaded(os, read);
            && (forall k :: k in all ==> (k in read && all[k] == read[k]) || (all[k].id == k && all[k] in os))
            && (forall k :: k in read ==> k in all)
            && (forall o :: o in os ==> o.id in all)
  {
    if os != [] {
      ObjectionsLoadedHas(os[1..], read[os[0].id := os[0]]);
      assert forall o :: o in os <==> o == os[0] || o in os[1..];
    }
  }

  lemma {:induction false} BranchesLoadedHas(bs: seq<Branch>, read: map<string, Branch>)
    ensures var all := BranchesLoaded(bs, read);
            && (forall k :: k in all ==> (k in read && all[k] == read[k]) || (all[k].id == k && all[k] in bs))
            && (forall k :: k in read ==> k in all)
            && (forall b :: b in bs ==> b.id in all)
  {
    if bs != [] {
      BranchesLoadedHas(bs[1..], read[bs[0].id := bs[0]]);
      assert forall b :: b in bs <==> b == bs[0] || b in bs[1..];
    }
  }

  /** A map is rebuilt as it was exactly if its keys are the stored ids. */
  lemma ObjectionsRebuilt(m: map<string, Objection>)
    ensures ObjectionsLoaded(ValuesInOrder(m), map[]) == m <==> forall k :: k in m ==> m[k].id == k
  {
    hide ObjectionsLoaded, ValuesInOrder;
    var os := ValuesInOrder(m);
    var all := ObjectionsLoaded(os, map[]);
    ObjectionsLoadedHas(os, map[]);
    if forall k :: k in m ==> m[k].id == k {
      ValuesAre(m);
      forall k | k in m ensures k in all {
        assert m[k] in os;
      }
      forall k | k in all ensures k in m && all[k] == m[k] {
        var l :| l in m && m[l] == all[k];
      }
    }
  }

  lemma BranchKeptIff(b: Branch)
    ensures BranchKept(b) == b <==>
              b.parent != Some("") && b.nextPlay != Some("") && forall o :: o in b.objections ==> b.objections[o].id == o
  {
    ObjectionsRebuilt(b.objections);
  }

  lemma BranchesRebuilt(m: map<string, Branch>)
    requires forall k :: k in m ==> m[k].id == k && BranchKept(m[k]) == m[k]
    ensures BranchesLoaded(BranchesKept(ValuesInOrder(m)), map[]) == m
  {
    hide BranchKept, BranchesLoaded, ValuesInOrder;
    ValuesAre(m);
    var bs := ValuesInOrder(m);
    forall i | 0 <= i < |bs| ensures BranchKept(bs[i]) == bs[i] {
      assert bs[i] in bs;
    }
    assert BranchesKept(bs) == bs;
    var all := BranchesLoaded(bs, map[]);
    BranchesLoadedHas(bs, map[]);
    forall k | k in m ensures k in all {
      assert m[k] in bs;
    }
    forall k | k in all ensures k in m && all[k] == m[k] {
      var l :| l in m && m[l] == all[k];
    }
  }

  lemma BranchesRebuiltOnly(m: map<string, Branch>)
    requires BranchesLoaded(BranchesKept(ValuesInOrder(m)), map[]) == m
    ensures forall k :: k in m ==> m[k].id == k && BranchKept(m[k]) == m[k]
  {
    hide BranchKept;
    var bs := BranchesKept(ValuesInOrder(m));
    BranchesLoadedHas(bs, map[]);
    hide BranchesLoaded;
    forall k | k in m ensures m[k].id == k && BranchKept(m[k]) == m[k] {
      var i :| 0 <= i < |bs| && bs[i] == m[k];
      KeptTwice(ValuesInOrder(m)[i]);
    }
  }

  /** Keeping what was kept changes nothing more. */
  lemma KeptTwice(b: Branch)
    ensures BranchKept(BranchKept(b)) == BranchKept(b)
  {
    ObjectionsLoadedHas(ValuesInOrder(b.objections), map[]);
    BranchKeptIff(BranchKept(b));
  }

  /** A book survives its own text exactly when every key is the stored id and no
      optional name is blank. */
  lemma RoundTrip(b: Book)
    requires BookHeld(b)
    ensures BookOf(BookText(b)) == Ok(b) <==> Keyed(b) && NoBlanks(b)
  {
    hide BookText, BookOf, BookHeld, BranchKept, BranchesLoaded, BranchesKept, ValuesInOrder;
    BookBack(b);
    forall k | k in b.branches ensures BranchKept(b.branches[k]) == b.branches[k] <==>
      b.branches[k].parent != Some("") && b.branches[k].nextPlay != Some("")
      && forall o :: o in b.branches[k].objections ==> b.branches[k].objections[o].id == o
    {
      BranchKeptIff(b.branches[k]);
    }
    if Keyed(b) && NoBlanks(b) {
      BranchesRebuilt(b.branches);
    }
    if BookKept(b) == b {
      BranchesRebuiltOnly(b.branches);
    }
  }

  ghost predicate ObjectionsKeyed(m: map<string, Objection>) {
    forall k :: k in m ==> m[k].id == k
  }

  ghost predicate BranchClean(b: Branch) {
    b.parent != Some("") && b.nextPlay != Some("") && ObjectionsKeyed(b.objections)
  }

  ghost predicate BranchesClean(m: map<string, Branch>) {
    forall k :: k in m ==> m[k].id == k && BranchClean(m[k])
  }

  lemma {:induction false} ObjectionsReadKeyed(n: nat, s: string, read: map<string, Objection>)
    requires ObjectionsKeyed(read)
    ensures var r := TakeObjections(n, s, read); r.Ok? ==> ObjectionsKeyed(r.value.0)
  {
    hide TakeObjection;
    if n > 0 && TakeObjection(s).Ok? {
      var (o, s1) := TakeObjection(s).value;
      ObjectionsReadKeyed(n - 1, s1, read[o.id := o]);
    }
  }

  lemma BranchTailClean(b: Branch, s: string)
    ensures var r := TakeBranchTail(b, s);
            r.Ok? ==> ObjectionsKeyed(r.value.0.objections) && r.value.0.parent == b.parent && r.value.0.nextPlay == b.nextPlay
  {
    hide TakeField, TakeNumber, TakeRefs, TakeObjections, ObjectionsKeyed;
    forall m: nat, t ensures TakeObjections(m, t, map[]).Ok? ==> ObjectionsKeyed(TakeObjections(m, t, map[]).value.0) {
      assert ObjectionsKeyed(map[]) by {
        NoObjectionsKeyed();
      }
      ObjectionsReadKeyed(m, t, map[]);
    }
  }

  lemma NoObjectionsKeyed()
    ensures ObjectionsKeyed(map[]) && BranchesClean(map[])
  {
  }

  lemma BranchReadClean(s: string)
    ensures var r := TakeBranch(s); r.Ok? ==> BranchClean(r.value.0)
  {
    hide TakeField, TakeBranchTail, ObjectionsKeyed;
    forall b, t ensures var r := TakeBranchTail(b, t);
      r.Ok? ==> ObjectionsKeyed(r.value.0.objections) && r.value.0.parent == b.parent && r.value.0.nextPlay == b.nextPlay
    {
      BranchTailClean(b, t);
    }
  }

  lemma {:induction false} BranchesReadClean(n: nat, s: string, read: map<string, Branch>)
    requires BranchesClean(read)
    ensures var r := TakeBranches(n, s, read); r.Ok? ==> BranchesClean(r.value.0)
  {
    hide TakeBranch, BranchClean;
    if n > 0 && TakeBranch(s).Ok? {
      BranchReadClean(s);
      var (b, s1) := TakeBranch(s).value;
      BranchesReadClean(n - 1, s1, read[b.id := b]);
    }
  }

  /** Whatever text is read, the book read is one that survives its own text. */
  lemma ReadIsClean(s: string)
    ensures BookOf(s).Ok? ==> Keyed(BookOf(s).value) && NoBlanks(BookOf(s).value)
  {
    hide TakeField, TakeNumber, TakeBranches, VersionAfter;
    NoObjectionsKeyed();
    forall n: nat, t ensures TakeBranches(n, t, map[]).Ok? ==> BranchesClean(TakeBranches(n, t, map[]).value.0) {
      BranchesReadClean(n, t, map[]);
    }
  }

  // ---- Printing, in place ----

  lemma {:induction false} RefsSplit(refs: seq<EvidenceRef>, rest: string)
    ensures RefsThen(refs, rest) == RefsThen(refs, "") + rest
  {
    if refs != [] {
      RefsSplit(refs[1..], rest);
      hide Field;
      var kind, key, tail := Field(refs[0].kind), Field(refs[0].contentKey), RefsThen(refs[1..], "");
      assert kind + (key + (tail + rest)) == (kind + (key + tail)) + rest;
    }
  }

  lemma ObjectionSplit(o: Objection, rest: string)
    ensures ObjectionThen(o, rest) == ObjectionThen(o, "") + rest
  {
    RefsSplit(o.evidence, rest);
    hide Field, RefsThen;
    var a, b, c, refs := Field(o.id), Field(o.statement), Field(Digits(|o.evidence|)), RefsThen(o.evidence, "");
    assert a + (b + (c + (refs + rest))) == (a + (b + (c + refs))) + rest;
  }

  lemma {:induction false} ObjectionsSplit(os: seq<Objection>, rest: string)
    ensures ObjectionsThen(os, rest) == ObjectionsThen(os, "") + rest
  {
    hide ObjectionThen;
    if os != [] {
      ObjectionsSplit(os[1..], rest);
      ObjectionSplit(os[0], ObjectionsThen(os[1..], rest));
      ObjectionSplit(os[0], ObjectionsThen(os[1..], ""));
    }
  }

  lemma BranchSplit(b: Branch, rest: string)
    ensures BranchThen(b, rest) == BranchThen(b, "") + rest
  {
    var os := ValuesInOrder(b.objections);
    var count := Field(Digits(|b.objections|));
    ObjectionsSplit(os, rest);
    RefsSplit(b.evidence, count + ObjectionsThen(os, rest));
    RefsSplit(b.evidence, count + ObjectionsThen(os, ""));
    hide Field, RefsThen, ObjectionsThen, ValuesInOrder;
    var refs, objections := RefsThen(b.evidence, ""), ObjectionsThen(os, "");
    var f0, f1, f2, f3 := Field(b.id), Field(OrEmpty(b.parent)), Field(b.thesis), Field(OrEmpty(b.nextPlay));
    var f4, f5 := Field(if b.isSealed then "1" else "0"), Field(Digits(|b.evidence|));
    SevenThen(f0, f1, f2, f3, f4, f5, refs, count, objections, rest);
  }

  lemma SevenThen(f0: string, f1: string, f2: string, f3: string, f4: string, f5: string, refs: string, count: string, objections: string, rest: string)
    ensures f0 + (f1 + (f2 + (f3 + (f4 + (f5 + (refs + (count + (objections + rest))))))))
            == (f0 + (f1 + (f2 + (f3 + (f4 + (f5 + (refs + (count + objections)))))))) + rest
  {
    assert refs + (count + (objections + rest)) == (refs + (count + objections)) + rest;
    var tail := refs + (count + objections);
    assert f4 + (f5 + (tail + rest)) == (f4 + (f5 + tail)) + rest;
    var more := f4 + (f5 + tail);
    assert f2 + (f3 + (more + rest)) == (f2 + (f3 + more)) + rest;
    var most := f2 + (f3 + more);
    assert f0 + (f1 + (most + rest)) == (f0 + (f1 + most)) + rest;
  }

  method PushRefs(prefix: string, refs: seq<EvidenceRef>) returns (out: string)
    ensures out == prefix + RefsThen(refs, "")
  {
    hide Field;
    out := prefix;
    for i := 0 to |refs|
      invariant out + RefsThen(refs[i..], "") == prefix + RefsThen(refs, "")
    {
      ghost var before := out;
      out := out + Field(refs[i].kind);
      out := out + Field(refs[i].contentKey);
      assert refs[i..][0] == refs[i] && refs[i..][1..] == refs[i + 1..];
      ghost var tail := RefsThen(refs[i + 1..], "");
      assert out + tail == before + (Field(refs[i].kind) + (Field(refs[i].contentKey) + tail));
    }
  }

  method PushObjection(prefix: string, o: Objection) returns (out: string)
    ensures out == prefix + ObjectionThen(o, "")
  {
    hide Field, RefsThen;
    out := prefix + Field(o.id);
    out := out + Field(o.statement);
    out := out + Field(Digits(|o.evidence|));
    out := PushRefs(out, o.evidence);
    ghost var a, b, c, refs := Field(o.id), Field(o.statement), Field(Digits(|o.evidence|)), RefsThen(o.evidence, "");
    assert prefix + a + b + c + refs == prefix + (a + (b + (c + refs)));
  }

  lemma NothingMore()
    ensures ObjectionsThen([], "") == "" && BranchesThen([], "") == ""
    ensures forall out: string :: out + "" == out
  {
  }

  lemma Appended(before: string, part: string, tail: string)
    ensures before + part + tail == before + (part + tail)
  {
  }

  lemma ObjectionsFrom(os: seq<Objection>, i: nat)
    requires i < |os|
    ensures ObjectionsThen(os[i..], "") == ObjectionThen(os[i], "") + ObjectionsThen(os[i + 1..], "")
  {
    assert os[i..][0] == os[i] && os[i..][1..] == os[i + 1..];
    ObjectionSplit(os[i], ObjectionsThen(os[i + 1..], ""));
  }

  method PushObjections(prefix: string, m: map<string, Objection>) returns (out: string)
    ensures out == prefix + ObjectionsThen(ValuesInOrder(m), "")
  {
    hide ObjectionThen, ObjectionsThen, ValuesInOrder, InOrder;
    var keys := KeysInOrder(m.Keys);
    ghost var all := ValuesInOrder(m);
    ghost var whole := prefix + ObjectionsThen(all, "");
    ValuesAre(m);
    out := prefix;
    assert all[0..] == all;
    for i := 0 to |keys|
      invariant out + ObjectionsThen(all[i..], "") == whole
    {
      ValueAt(m, i);
      ObjectionsFrom(all, i);
      ghost var before, part, tail := out, ObjectionThen(all[i], ""), ObjectionsThen(all[i + 1..], "");
      out := PushObjection(out, m[keys[i]]);
      Appended(before, part, tail);
    }
    NothingMore();
    assert all[|all|..] == [];
  }

  method PushBranch(prefix: string, b: Branch) returns (out: string)
    ensures out == prefix + BranchThen(b, "")
  {
    ghost var count, objections := Field(Digits(|b.objections|)), ObjectionsThen(ValuesInOrder(b.objections), "");
    RefsSplit(b.evidence, count + objections);
    BranchFields(prefix, Field(b.id), Field(OrEmpty(b.parent)), Field(b.thesis), Field(OrEmpty(b.nextPlay)),
                 Field(if b.isSealed then "1" else "0"), Field(Digits(|b.evidence|)), RefsThen(b.evidence, ""), count, objections);
    hide Field, RefsThen, ObjectionsThen, ValuesInOrder, OrEmpty;
    out := prefix + Field(b.id);
    out := out + Field(OrEmpty(b.parent));
    out := out + Field(b.thesis);
    out := out + Field(OrEmpty(b.nextPlay));
    out := out + Field(if b.isSealed then "1" else "0");
    out := out + Field(Digits(|b.evidence|));
    out := PushRefs(out, b.evidence);
    out := out + Field(Digits(|b.objections|));
    out := PushObjections(out, b.objections);
  }

  lemma BranchFields(prefix: string, f0: string, f1: string, f2: string, f3: string, f4: string, f5: string, refs: string, count: string, objections: string)
    ensures prefix + f0 + f1 + f2 + f3 + f4 + f5 + refs + count + objections
            == prefix + (f0 + (f1 + (f2 + (f3 + (f4 + (f5 + (refs + (count + objections))))))))
  {
    var tail := refs + (count + objections);
    assert prefix + f0 + f1 + f2 + f3 + f4 + f5 + refs + count + objections == prefix + f0 + f1 + f2 + f3 + f4 + f5 + tail;
    var more := f4 + (f5 + tail);
    assert prefix + f0 + f1 + f2 + f3 + f4 + f5 + tail == prefix + f0 + f1 + f2 + f3 + more;
    var most := f2 + (f3 + more);
    assert prefix + f0 + f1 + f2 + f3 + more == prefix + f0 + f1 + most;
    assert prefix + f0 + f1 + most == prefix + (f0 + (f1 + most));
  }

  lemma BranchesFrom(bs: seq<Branch>, i: nat)
    requires i < |bs|
    ensures BranchesThen(bs[i..], "") == BranchThen(bs[i], "") + BranchesThen(bs[i + 1..], "")
  {
    assert bs[i..][0] == bs[i] && bs[i..][1..] == bs[i + 1..];
    BranchSplit(bs[i], BranchesThen(bs[i + 1..], ""));
  }

  method PushBranches(prefix: string, m: map<string, Branch>) returns (out: string)
    ensures out == prefix + BranchesThen(ValuesInOrder(m), "")
  {
    hide BranchThen, BranchesThen, ValuesInOrder, InOrder;
    var keys := KeysInOrder(m.Keys);
    ghost var all := ValuesInOrder(m);
    ghost var whole := prefix + BranchesThen(all, "");
    ValuesAre(m);
    out := prefix;
    assert all[0..] == all;
    for i := 0 to |keys|
      invariant out + BranchesThen(all[i..], "") == whole
    {
      ValueAt(m, i);
      BranchesFrom(all, i);
      ghost var before, part, tail := out, BranchThen(all[i], ""), BranchesThen(all[i + 1..], "");
      out := PushBranch(out, m[keys[i]]);
      Appended(before, part, tail);
    }
    NothingMore();
    assert all[|all|..] == [];
  }

  /** encode. */
  method Encode(b: Book) returns (out: string)
    ensures out == BookText(b)
  {
    hide Field, BranchesThen, ValuesInOrder, OrEmpty;
    out := HEADER + Field(b.id);
    out := out + Field(Digits(b.revision));
    out := out + Field(OrEmpty(b.choice));
    out := out + Field(Digits(|b.branches|));
    out := PushBranches(out, b.branches);
    BookFields(Field(b.id), Field(Digits(b.revision)), Field(OrEmpty(b.choice)), Field(Digits(|b.branches|)),
               BranchesThen(ValuesInOrder(b.branches), ""));
  }

  lemma BookFields(f0: string, f1: string, f2: string, f3: string, tail: string)
    ensures HEADER + f0 + f1 + f2 + f3 + tail == HEADER + (f0 + (f1 + (f2 + (f3 + tail))))
  {
  }

  // ---- Reading, in place ----

  class Cursor {
    var rest: string

    constructor (text: string)
      ensures rest == text
    {
      rest := text;
    }

    /** take: on success the cursor has moved past the field. */
    method Take() returns (r: Result<string, CodecError>)
      modifies this
      ensures match TakeField(old(rest))
              case Ok((value, after)) => r == Ok(value) && rest == after
              case Err(e) => r == Err(e) && rest == old(rest)
    {
      var colon := ColonAt(rest);
      if colon == |rest| {
        return Err(Malformed("missing field length"));
      }
      var len := ParseNat(rest[..colon]);
      if len.None? {
        return Err(Malformed("invalid field length"));
      }
      var after := rest[colon + 1..];
      if |after| < len.value || !Boundary(after, len.value) {
        return Err(Malformed("truncated field"));
      }
      rest := after[len.value..];
      return Ok(after[..len.value]);
    }

    method TakeCount(what: string) returns (r: Result<nat, CodecError>)
      modifies this
      ensures match TakeNumber(old(rest), what)
              case Ok((n, after)) => r == Ok(n) && rest == after
              case Err(e) => r == Err(e)
    {
      var text := Take();
      if text.Err? {
        return Err(text.error);
      }
      var n := ParseNat(text.value);
      if n.None? {
        return Err(Malformed(what));
      }
      return Ok(n.value);
    }

    method TakeEvidence(n: nat) returns (r: Result<seq<EvidenceRef>, CodecError>)
      modifies this
      ensures match TakeRefs(n, old(rest))
              case Ok((refs, after)) => r == Ok(refs) && rest == after
              case Err(e) => r == Err(e)
    {
      hide TakeField;
      var refs: seq<EvidenceRef> := [];
      ghost var whole := TakeRefs(n, rest);
      assert whole.Ok? ==> [] + whole.value.0 == whole.value.0;
      for i := 0 to n
        invariant match TakeRefs(n - i, rest)
                  case Ok((more, after)) => TakeRefs(n, old(rest)) == Ok((refs + more, after))
                  case Err(e) => TakeRefs(n, old(rest)) == Err(e)
      {
        ghost var s := rest;
        var kind := Take();
        if kind.Err? {
          return Err(kind.error);
        }
        var key := Take();
        if key.Err? {
          return Err(key.error);
        }
        ghost var tail := TakeRefs(n - i - 1, rest);
        assert tail.Ok? ==> refs + ([EvidenceRef(kind.value, key.value)] + tail.value.0) == refs + [EvidenceRef(kind.value, key.value)] + tail.value.0;
        refs := refs + [EvidenceRef(kind.value, key.value)];
      }
      assert refs + [] == refs;
      return Ok(refs);
    }

    method TakeOneObjection() returns (r: Result<Objection, CodecError>)
      modifies this
      ensures match TakeObjection(old(rest))
              case Ok((o, after)) => r == Ok(o) && rest == after
              case Err(e) => r == Err(e)
    {
      hide TakeField, TakeNumber, TakeRefs;
      var id := Take();
      if id.Err? {
        return Err(id.error);
      }
      var statement := Take();
      if statement.Err? {
        return Err(statement.error);
      }
      var n := TakeCount("objection reference count");
      if n.Err? {
        return Err(n.error);
      }
      var refs := TakeEvidence(n.value);
      if refs.Err? {
        return Err(refs.error);
      }
      return Ok(Objection(id.value, statement.value, refs.value));
    }

    method TakeAllObjections(n: nat) returns (r: Result<map<string, Objection>, CodecError>)
      modifies this
      ensures match TakeObjections(n, old(rest), map[])
              case Ok((all, after)) => r == Ok(all) && rest == after
              case Err(e) => r == Err(e)
    {
      hide TakeObjection;
      var all: map<string, Objection> := map[];
      for i := 0 to n
        invariant TakeObjections(n - i, rest, all) == TakeObjections(n, old(rest), map[])
      {
        var o := TakeOneObjection();
        if o.Err? {
          return Err(o.error);
        }
        all := all[o.value.id := o.value];
      }
      return Ok(all);
    }

    method TakeOneBranch() returns (r: Result<Branch, CodecError>)
      modifies this
      ensures match TakeBranch(old(rest))
              case Ok((b, after)) => r == Ok(b) && rest == after
              case Err(e) => r == Err(e)
    {
      hide TakeField, TakeBranchTail;
      var id := Take();
      if id.Err? {
        return Err(id.error);
      }
      var parent := Take();
      if parent.Err? {
        return Err(parent.error);
      }
      var thesis := Take();
      if thesis.Err? {
        return Err(thesis.error);
      }
      var play := Take();
      if play.Err? {
        return Err(play.error);
      }
      var flag := Take();
      if flag.Err? {
        return Err(flag.error);
      }
      r := TakeTail(Branch(id.value, EmptyIsNone(parent.value), thesis.value, [], map[], EmptyIsNone(play.value), flag.value == "1"));
    }

    method TakeTail(b: Branch) returns (r: Result<Branch, CodecError>)
      modifies this
      ensures match TakeBranchTail(b, old(rest))
              case Ok((full, after)) => r == Ok(full) && rest == after
              case Err(e) => r == Err(e)
    {
      hide TakeNumber, TakeRefs, TakeObjections;
      var n := TakeCount("reference count");
      if n.Err? {
        return Err(n.error);
      }
      var refs := TakeEvidence(n.value);
      if refs.Err? {
        return Err(refs.error);
      }
      var m := TakeCount("objection count");
      if m.Err? {
        return Err(m.error);
      }
      var objections := TakeAllObjections(m.value);
      if objections.Err? {
        return Err(objections.error);
      }
      return Ok(b.(evidence := refs.value, objections := objections.value));
    }

    method TakeAllBranches(n: nat) returns (r: Result<map<string, Branch>, CodecError>)
      modifies this
      ensures match TakeBranches(n, old(rest), map[])
              case Ok((all, after)) => r == Ok(all) && rest == after
              case Err(e) => r == Err(e)
    {
      hide TakeBranch;
      var all: map<string, Branch> := map[];
      for i := 0 to n
        invariant TakeBranches(n - i, rest, all) == TakeBranches(n, old(rest), map[])
      {
        var b := TakeOneBranch();
        if b.Err? {
          return Err(b.error);
        }
        all := all[b.value.id := b.value];
      }
      return Ok(all);
    }
  }

  /** decode. */
  method Decode(encoded: string) returns (r: Result<Book, CodecError>)
    ensures r == BookOf(encoded)
  {
    hide TakeField, TakeNumber, TakeBranches, VersionAfter;
    if !(HEADER <= encoded) {
      return Err(UnsupportedVersion(VersionAfter(encoded)));
    }
    var cursor := new Cursor(encoded[|HEADER|..]);
    var id := cursor.Take();
    if id.Err? {
      return Err(id.error);
    }
    var revision := cursor.TakeCount("revision");
    if revision.Err? {
      return Err(revision.error);
    }
    var choice := cursor.Take();
    if choice.Err? {
      return Err(choice.error);
    }
    var count := cursor.TakeCount("branch count");
    if count.Err? {
      return Err(count.error);
    }
    var branches := cursor.TakeAllBranches(count.value);
    if branches.Err? {
      return Err(branches.error);
    }
    if cursor.rest != "" {
      return Err(Malformed("trailing bytes"));
    }
    return Ok(Book(id.value, revision.value, branches.value, EmptyIsNone(choice.value)));
  }
}
