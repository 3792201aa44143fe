/** Optimistic edits of an expedition book, and what they leave true for its text.
    An edit states the revision it expects, is refused over any other, and raises the
    revision by one.  The invariant is the one the text of a book relies on: every
    key is the id of what is stored under it. */
module BookEdits {
  import opened Syntax
  import opened Texts
  import opened BookCodec

  datatype EditError =
    | StaleRevision(expected: nat, actual: nat)
    | MissingBranch(branch: string)
    | SealedBranch(branch: string)
    | DuplicateId(id: string)
    | InvalidChoice(branch: string)
    | InvalidRetention

  // ---- Evidence ----

  predicate RefLess(a: EvidenceRef, b: EvidenceRef) {
    LexLess(a.kind, b.kind) || (a.kind == b.kind && LexLess(a.contentKey, b.contentKey))
  }

  lemma RefTotal(a: EvidenceRef, b: EvidenceRef)
    ensures a != b ==> RefLess(a, b) || RefLess(b, a)
    ensures !(RefLess(a, b) && RefLess(b, a)) && !RefLess(a, a)
  {
    LexTotal(a.kind, b.kind);
    LexTotal(a.contentKey, b.contentKey);
  }

  lemma RefTransitive(a: EvidenceRef, b: EvidenceRef, c: EvidenceRef)
    requires RefLess(a, b) && RefLess(b, c)
    ensures RefLess(a, c)
  {
    LexTotal(a.kind, b.kind);
    LexTotal(b.kind, c.kind);
    if LexLess(a.kind, b.kind) && LexLess(b.kind, c.kind) {
      LexTransitive(a.kind, b.kind, c.kind);
    }
    if a.kind == b.kind == c.kind {
      LexTransitive(a.contentKey, b.contentKey, c.contentKey);
    }
  }

  /** In order and without repetition. */
  ghost predicate Tidy(refs: seq<EvidenceRef>) {
    forall i, j :: 0 <= i < j < |refs| ==> RefLess(refs[i], refs[j])
  }

  function Place(r: EvidenceRef, refs: seq<EvidenceRef>): seq<EvidenceRef> {
    if refs == [] then [r]
    else if r == refs[0] then refs
    else if RefLess(r, refs[0]) then [r] + refs
    else [refs[0]] + Place(r, refs[1..])
  }

  lemma {:induction false} PlaceTidy(r: EvidenceRef, refs: seq<EvidenceRef>)
    requires Tidy(refs)
    ensures Tidy(Place(r, refs))
    ensures forall x :: x in Place(r, refs) <==> x == r || x in refs
  {
    if refs != [] {
      assert refs == [refs[0]] + refs[1..];
      if r != refs[0] {
        RefTotal(r, refs[0]);
        if RefLess(r, refs[0]) {
          forall j | 0 < j < |refs| ensures RefLess(r, refs[j]) {
            RefTransitive(r, refs[0], refs[j]);
          }
        } else {
          PlaceTidy(r, refs[1..]);
          forall x | x in Place(r, refs[1..]) ensures RefLess(refs[0], x) {
            if x != r {
              var j :| 0 <= j < |refs[1..]| && refs[1..][j] == x;
              assert refs[j + 1] == x;
            }
          }
        }
      }
    }
  }

  /** sort, then dedup. */
  function Tidied(refs: seq<EvidenceRef>): seq<EvidenceRef> {
    if refs == [] then [] else Place(refs[0], Tidied(refs[1..]))
  }

  lemma {:induction false} TidiedTidy(refs: seq<EvidenceRef>)
    ensures Tidy(Tidied(refs)) && forall x :: x in Tidied(refs) <==> x in refs
  {
    if refs != [] {
      TidiedTidy(refs[1..]);
      PlaceTidy(refs[0], Tidied(refs[1..]));
      assert refs == [refs[0]] + refs[1..];
    }
  }

  /** There is only one tidy list of given references: the way it was sorted does
      not matter. */
  lemma {:induction false} TidyUnique(a: seq<EvidenceRef>, b: seq<EvidenceRef>)
    requires Tidy(a) && Tidy(b) && forall x :: x in a <==> x in b
    ensures a == b
  {
    assert b != [] ==> b[0] in b;
    if a != [] {
      assert a[0] in a && a[0] in b;
      assert b[0] in b && b[0] in a;
      var i :| 0 <= i < |b| && b[i] == a[0];
      var j :| 0 <= j < |a| && a[j] == b[0];
      RefTotal(a[0], b[0]);
      assert a[0] == b[0];
      forall x ensures x in a[1..] <==> x in b[1..] {
        RefTotal(x, x);
        HeadOnce(a, x);
        HeadOnce(b, x);
      }
      TidyUnique(a[1..], b[1..]);
      assert a == [a[0]] + a[1..] && b == [b[0]] + b[1..];
    }
  }

  lemma HeadOnce(a: seq<EvidenceRef>, x: EvidenceRef)
    requires Tidy(a) && a != []
    ensures x in a[1..] <==> x in a && x != a[0]
  {
    RefTotal(x, x);
    if x in a[1..] {
      var i :| 0 <= i < |a[1..]| && a[1..][i] == x;
      assert a[i + 1] == x;
    }
    if x in a && x != a[0] {
      var i :| 0 <= i < |a| && a[i] == x;
      assert a[1..][i - 1] == x;
    }
  }

  // ---- The invariant of edited books ----

  /** Keys are ids, the root and the chosen branch are there, evidence is tidy. */
  ghost predicate Sound(b: Book) {
    && Keyed(b)
    && "root" in b.branches
    && (b.choice.Some? ==> b.choice.value in b.branches)
    && (forall k :: k in b.branches ==> Tidy(b.branches[k].evidence))
  }

  class ExpeditionBook {
    const id: string
    var revision: nat
    var branches: map<string, Branch>
    var choice: Option<string>

    ghost function View(): Book
      reads this
    {
      Book(id, revision, branches, choice)
    }

    ghost predicate Valid()
      reads this
    {
      Sound(View())
    }

    constructor (id: string, thesis: string)
      ensures Valid() && NoBlanks(View())
      ensures View() == Book(id, 0, map["root" := Branch("root", None, thesis, [], map[], None, false)], None)
    {
      this.id := id;
      revision := 0;
      branches := map["root" := Branch("root", None, thesis, [], map[], None, false)];
      choice := None;
    }

    /** What an edit of one branch is refused for. */
    function Refusal(expected: nat, branch: string): Option<EditError>
      reads this
    {
      if expected != revision then Some(StaleRevision(expected, revision))
      else if branch !in branches then Some(MissingBranch(branch))
      else if branches[branch].isSealed then Some(SealedBranch(branches[branch].id))
      else None
    }

    /** branch: the fork starts with the parent's evidence.  A blank parent id is what
        the text of the book could not keep. */
    method Fork(expected: nat, parent: string, newId: string, thesis: string) returns (r: Result<nat, EditError>)
      requires Valid()
      modifies this
      ensures Valid()
      ensures r == if old(Refusal(expected, parent)).Some? then Err(old(Refusal(expected, parent)).value)
                   else if newId in old(branches) then Err(DuplicateId(newId)) else Ok(expected + 1)
      ensures r.Err? ==> View() == old(View())
      ensures r.Ok? ==> revision == expected + 1 && choice == old(choice)
                        && branches == old(branches)[newId := Branch(newId, Some(parent), thesis, old(branches)[parent].evidence, map[], None, false)]
      ensures r.Ok? && old(NoBlanks(View())) ==> (NoBlanks(View()) <==> parent != "")
    {
      if Refusal(expected, parent).Some? {
        return Err(Refusal(expected, parent).value);
      }
      if newId in branches {
        return Err(DuplicateId(newId));
      }
      var evidence := branches[parent].evidence;
      branches := branches[newId := Branch(newId, Some(parent), thesis, evidence, map[], None, false)];
      revision := revision + 1;
      assert branches[newId].parent == Some(parent);
      return Ok(revision);
    }

    /** reference: the evidence stays sorted and without repetition. */
    method Reference(expected: nat, branch: string, refs: seq<EvidenceRef>) returns (r: Result<nat, EditError>)
      requires Valid()
      modifies this
      ensures Valid()
      ensures r == if old(Refusal(expected, branch)).Some? then Err(old(Refusal(expected, branch)).value) else Ok(expected + 1)
      ensures r.Err? ==> View() == old(View())
      ensures r.Ok? ==> && revision == expected + 1 && choice == old(choice) && branch in branches
                        && branches == old(branches)[branch := old(branches)[branch].(evidence := branches[branch].evidence)]
                        && Tidy(branches[branch].evidence)
                        && forall x :: x in branches[branch].evidence <==> x in old(branches)[branch].evidence || x in refs
      ensures old(NoBlanks(View())) ==> NoBlanks(View())
    {
      if Refusal(expected, branch).Some? {
        return Err(Refusal(expected, branch).value);
      }
      var row := branches[branch];
      TidiedTidy(row.evidence + refs);
      branches := branches[branch := row.(evidence := Tidied(row.evidence + refs))];
      revision := revision + 1;
      return Ok(revision);
    }

    method Object(expected: nat, branch: string, objection: Objection) returns (r: Result<nat, EditError>)
      requires Valid()
      modifies this
      ensures Valid()
      ensures r == if old(Refusal(expected, branch)).Some? then Err(old(Refusal(expected, branch)).value)
                   else if objection.id in old(branches)[branch].objections then Err(DuplicateId(objection.id)) else Ok(expected + 1)
      ensures r.Err? ==> View() == old(View())
      ensures r.Ok? ==> && revision == expected + 1 && choice == old(choice)
                        && branches == old(branches)[branch := old(branches)[branch].(objections := old(branches)[branch].objections[objection.id := objection])]
      ensures old(NoBlanks(View())) ==> NoBlanks(View())
    {
      if Refusal(expected, branch).Some? {
        return Err(Refusal(expected, branch).value);
      }
      var row := branches[branch];
      if objection.id in row.objections {
        return Err(DuplicateId(objection.id));
      }
      branches := branches[branch := row.(objections := row.objections[objection.id := objection])];
      revision := revision + 1;
      return Ok(revision);
    }

    method Choose(expected: nat, branch: string) returns (r: Result<nat, EditError>)
      requires Valid()
      modifies this
      ensures Valid()
      ensures r == if expected != old(revision) then Err(StaleRevision(expected, old(revision)))
                   else if branch !in old(branches) then Err(InvalidChoice(branch)) else Ok(expected + 1)
      ensures r.Err? ==> View() == old(View())
      ensures r.Ok? ==> View() == old(View()).(revision := expected + 1, choice := Some(branch))
      ensures r.Ok? && old(NoBlanks(View())) ==> (NoBlanks(View()) <==> branch != "")
    {
      if expected != revision {
        return Err(StaleRevision(expected, revision));
      }
      if branch !in branches {
        return Err(InvalidChoice(branch));
      }
      choice := Some(branch);
      revision := revision + 1;
      return Ok(revision);
    }

    method SetNextPlay(expected: nat, branch: string, play: string) returns (r: Result<nat, EditError>)
      requires Valid()
      modifies this
      ensures Valid()
      ensures r == if old(Refusal(expected, branch)).Some? then Err(old(Refusal(expected, branch)).value) else Ok(expected + 1)
      ensures r.Err? ==> View() == old(View())
      ensures r.Ok? ==> View() == old(View()).(revision := expected + 1,
                                               branches := old(branches)[branch := old(branches)[branch].(nextPlay := Some(play))])
      ensures r.Ok? && old(NoBlanks(View())) ==> (NoBlanks(View()) <==> play != "")
    {
      if Refusal(expected, branch).Some? {
        return Err(Refusal(expected, branch).value);
      }
      branches := branches[branch := branches[branch].(nextPlay := Some(play))];
      revision := revision + 1;
      assert branches[branch].nextPlay == Some(play);
      return Ok(revision);
    }

    method Seal(expected: nat, branch: string) returns (r: Result<nat, EditError>)
      requires Valid()
      modifies this
      ensures Valid()
      ensures r == if old(Refusal(expected, branch)).Some? then Err(old(Refusal(expected, branch)).value) else Ok(expected + 1)
      ensures r.Err? ==> View() == old(View())
      ensures r.Ok? ==> View() == old(View()).(revision := expected + 1,
                                               branches := old(branches)[branch := old(branches)[branch].(isSealed := true)])
      ensures old(NoBlanks(View())) ==> NoBlanks(View())
    {
      if Refusal(expected, branch).Some? {
        return Err(Refusal(expected, branch).value);
      }
      branches := branches[branch := branches[branch].(isSealed := true)];
      revision := revision + 1;
      return Ok(revision);
    }

    /** reopen works on open and sealed branches alike. */
    method Reopen(expected: nat, branch: string) returns (r: Result<nat, EditError>)
      requires Valid()
      modifies this
      ensures Valid()
      ensures r == if expected != old(revision) then Err(StaleRevision(expected, old(revision)))
                   else if branch !in old(branches) then Err(MissingBranch(branch)) else Ok(expected + 1)
      ensures r.Err? ==> View() == old(View())
      ensures r.Ok? ==> View() == old(View()).(revision := expected + 1,
                                               branches := old(branches)[branch := old(branches)[branch].(isSealed := false)])
      ensures old(NoBlanks(View())) ==> NoBlanks(View())
    {
      if expected != revision {
        return Err(StaleRevision(expected, revision));
      }
      if branch !in branches {
        return Err(MissingBranch(branch));
      }
      branches := branches[branch := branches[branch].(isSealed := false)];
      revision := revision + 1;
      return Ok(revision);
    }

    /** retain keeps the named branches; parents may be left dangling. */
    method Retain(expected: nat, ids: set<string>) returns (r: Result<nat, EditError>)
      requires Valid()
      modifies this
      ensures Valid()
      ensures r == if expected != old(revision) then Err(StaleRevision(expected, old(revision)))
                   else if "root" !in ids || (old(choice).Some? && old(choice).value !in ids) then Err(InvalidRetention)
                   else Ok(expected + 1)
      ensures r.Err? ==> View() == old(View())
      ensures r.Ok? ==> View() == old(View()).(revision := expected + 1, branches := map k | k in old(branches) && k in ids :: old(branches)[k])
      ensures old(NoBlanks(View())) ==> NoBlanks(View())
    {
      if expected != revision {
        return Err(StaleRevision(expected, revision));
      }
      if "root" !in ids || (choice.Some? && choice.value !in ids) {
        return Err(InvalidRetention);
      }
      branches := map k | k in branches && k in ids :: branches[k];
      revision := revision + 1;
      return Ok(revision);
    }

    /** snapshot: the payload reads back as this very book exactly when nothing in it
        is blank. */
    method Snapshot() returns (payload: string)
      requires Valid() && BookHeld(View())
      ensures payload == BookText(View())
      ensures BookOf(payload) == Ok(View()) <==> NoBlanks(View())
    {
      RoundTrip(View());
      hide BookText, BookOf, Keyed, NoBlanks;
      payload := Encode(Book(id, revision, branches, choice));
    }
  }

  /** A sound book whose chosen branch has a blank id: its text cannot keep it. */
  lemma BlankChoiceIsLost(root: Branch, blank: Branch)
    requires root == Branch("root", None, "", [], map[], None, false) && blank == Branch("", Some("root"), "", [], map[], None, false)
    ensures var b := Book("b", 2, map["root" := root, "" := blank], Some(""));
            Sound(b) && BookHeld(b) && BookOf(BookText(b)) != Ok(b)
  {
    hide BookOf, BookText;
    var b := Book("b", 2, map["root" := root, "" := blank], Some(""));
    assert b.branches["root"] == root && b.branches[""] == blank;
    SmallBook(root, blank);
    RoundTrip(b);
  }

  lemma SmallBook(root: Branch, blank: Branch)
    requires root == Branch("root", None, "", [], map[], None, false) && blank == Branch("", Some("root"), "", [], map[], None, false)
    ensures var b := Book("b", 2, map["root" := root, "" := blank], Some("")); Sound(b) && BookHeld(b)
  {
    var b := Book("b", 2, map["root" := root, "" := blank], Some(""));
    assert |b.branches| <= 2;
    assert forall k :: k in b.branches ==> b.branches[k] == root || b.branches[k] == blank;
    assert BranchHeld(root) && BranchHeld(blank);
  }
}
