/** What preparation means. */
module Preparation {
  // A prepared expression and the bindings beside it, said without the walk that makes
  // them: the places where a value is read, from left to right, what is found at each,
  // and the expression spelled with the names of the values.

  import opened Syntax
  import opened Texts
  import opened Paths
  import opened Policy
  import opened Evaluation
  import opened EvaluationFacts
  import opened Engine

  /** The name the n-th value read is bound to. */
  function ValueName(n: nat): Symbol {
    Symbol(Some("expr-tree-dependency"), "value-" + Digits(n))
  }

  /** Nothing binds the symbol when n values have been read. */
  ghost predicate Free(k: Kernel, inp: Inputs, n: nat, s: Symbol) {
    && (forall m {:trigger ValueName(m)} :: 0 <= m < n ==> s != ValueName(m))
    && s !in inp.boundValues && !(s.space.None? && s.name in inp.boundNames) && s !in k.base
  }

  // ---- Where values are read ----

  datatype Place = TooDeep | Bare(symbol: Symbol) | Reference(args: seq<Expr>)

  predicate CallsReference(operator: Expr) {
    operator.Sym? && operator.symbol.Text() == "expr-tree/ref"
  }

  /** The places of an expression at this depth, n values having been read before. */
  ghost function Places(k: Kernel, inp: Inputs, e: Expr, depth: nat, n: nat): seq<Place>
    decreases e
  {
    if depth > 128 then [TooDeep]
    else
      match e
      case Sym(s) => if Free(k, inp, n, s) then [Bare(s)] else []
      case Call(operator, args) =>
        if CallsReference(operator) then [Reference(args)]
        else
          var first := Places(k, inp, operator, depth + 1, n);
          first + PlacesOf(k, inp, args, depth + 1, n + |first|)
      case List(items) => PlacesOf(k, inp, items, depth + 1, n)
      case Vector(items) => PlacesOf(k, inp, items, depth + 1, n)
      case Set(items) => PlacesOf(k, inp, items, depth + 1, n)
      case Block(items) => PlacesOf(k, inp, items, depth + 1, n)
      case Map(entries) => PlacesIn(k, inp, entries, depth + 1, n)
      case Annotated(inner, _) => Places(k, inp, inner, depth + 1, n)
      case Nil => []
      case Bool(_) => []
      case Number(_, _) => []
      case Local(_) => []
      case Str(_) => []
      case Bytes(_) => []
      case Infix(_, _, _) => []
      case Prefix(_, _) => []
      case Postfix(_, _) => []
      case Quote(_) => []
      case Extension(_, _) => []
  }

  ghost function PlacesOf(k: Kernel, inp: Inputs, items: seq<Expr>, depth: nat, n: nat): seq<Place>
    decreases items
  {
    if items == [] then []
    else
      var first := Places(k, inp, items[0], depth, n);
      first + PlacesOf(k, inp, items[1..], depth, n + |first|)
  }

  ghost function PlacesIn(k: Kernel, inp: Inputs, entries: seq<Entry>, depth: nat, n: nat): seq<Place>
    decreases entries
  {
    if entries == [] then []
    else
      assert entries[0].key < entries[0] && entries[0].value < entries[0];
      var key := Places(k, inp, entries[0].key, depth, n);
      var value := Places(k, inp, entries[0].value, depth, n + |key|);
      key + value + PlacesIn(k, inp, entries[1..], depth, n + |key| + |value|)
  }

  // ---- What the expression becomes ----

  /** Every place becomes the name of its value; everything else stays. */
  ghost function Spelling(k: Kernel, inp: Inputs, e: Expr, depth: nat, n: nat): Expr
    decreases e
  {
    match e
    case Sym(s) => if Free(k, inp, n, s) then Sym(ValueName(n)) else e
    case Call(operator, args) =>
      if CallsReference(operator) then Sym(ValueName(n))
      else
        Call(Spelling(k, inp, operator, depth + 1, n),
             SpellingOf(k, inp, args, depth + 1, n + |Places(k, inp, operator, depth + 1, n)|))
    case List(items) => List(SpellingOf(k, inp, items, depth + 1, n))
    case Vector(items) => Vector(SpellingOf(k, inp, items, depth + 1, n))
    case Set(items) => Set(SpellingOf(k, inp, items, depth + 1, n))
    case Block(items) => Block(SpellingOf(k, inp, items, depth + 1, n))
    case Map(entries) => Map(SpellingIn(k, inp, entries, depth + 1, n))
    case Annotated(inner, annotations) => Annotated(Spelling(k, inp, inner, depth + 1, n), annotations)
    case Nil => e
    case Bool(_) => e
    case Number(_, _) => e
    case Local(_) => e
    case Str(_) => e
    case Bytes(_) => e
    case Infix(_, _, _) => e
    case Prefix(_, _) => e
    case Postfix(_, _) => e
    case Quote(_) => e
    case Extension(_, _) => e
  }

  ghost function SpellingOf(k: Kernel, inp: Inputs, items: seq<Expr>, depth: nat, n: nat): (r: seq<Expr>)
    ensures |r| == |items|
    decreases items
  {
    if items == [] then []
    else
      [Spelling(k, inp, items[0], depth, n)]
      + SpellingOf(k, inp, items[1..], depth, n + |Places(k, inp, items[0], depth, n)|)
  }

  ghost function SpellingIn(k: Kernel, inp: Inputs, entries: seq<Entry>, depth: nat, n: nat): seq<Entry>
    decreases entries
  {
    if entries == [] then []
    else
      assert entries[0].key < entries[0] && entries[0].value < entries[0];
      var afterKey := n + |Places(k, inp, entries[0].key, depth, n)|;
      var afterValue := afterKey + |Places(k, inp, entries[0].value, depth, afterKey)|;
      [Entry(Spelling(k, inp, entries[0].key, depth, n), Spelling(k, inp, entries[0].value, depth, afterKey))]
      + SpellingIn(k, inp, entries[1..], depth, afterValue)
  }

  // ---- What is read there ----

  datatype Verdict = Stored(target: Path) | Absent(text: string) | Refused(failure: Failure)

  /** The n-th directory from the root is the innermost one that holds the name. */
  predicate IsNearest(cells: set<Path>, dir: Path, name: string, n: nat) {
    n <= |dir| && dir[..n] + [name] in cells && forall m :: n < m <= |dir| ==> dir[..m] + [name] !in cells
  }

  ghost function BareMeaning(cells: set<Path>, dir: Path, name: string): Verdict {
    if !LegalSegment(name) then Refused(Evaluation("invalid bare cell name " + name))
    else if exists n: nat :: IsNearest(cells, dir, name, n) then
      var n: nat :| IsNearest(cells, dir, name, n);
      Stored(dir[..n] + [name])
    else Absent(name)
  }

  ghost function ReferenceMeaning(k: Kernel, inp: Inputs, dir: Path, text: string): Verdict {
    match k.resolve(dir, text)
    case Err(m) => Refused(Evaluation(m))
    case Ok(target) => if target in inp.cells then Stored(target) else Absent(Paths.Key(target))
  }

  ghost function Meaning(k: Kernel, inp: Inputs, caller: Path, place: Place): Verdict {
    match place
    case TooDeep => Refused(ExpressionDepth(128))
    case Bare(s) => BareMeaning(inp.cells.Keys, Parent(caller), s.Text())
    case Reference(args) =>
      if |args| == 1 && args[0].Str? then ReferenceMeaning(k, inp, Parent(caller), args[0].text)
      else if |args| == 1 && args[0].Sym? then ReferenceMeaning(k, inp, Parent(caller), args[0].symbol.Text())
      else Refused(Evaluation("expr-tree/ref requires exactly one string or symbol reference"))
  }

  datatype Ending = Finished | Stopped(failure: Failure) | Waiting(target: Path)

  /** The values read, how many answers that took, and how it ended. */
  datatype Played = Played(values: seq<Value>, used: nat, ending: Ending)

  /** One more value read before. */
  function Delivered(value: Value, answers: nat, rest: Played): Played {
    Played([value] + rest.values, answers + rest.used, rest.ending)
  }

  /** Reading one place after another: a stored cell takes the next answer, a missing
      one reads as the text that says so, and the first failure ends it. */
  ghost function Play(k: Kernel, inp: Inputs, caller: Path, places: seq<Place>, answers: seq<Read>): Played
    decreases |places|
  {
    if places == [] then Played([], 0, Finished)
    else
      match Meaning(k, inp, caller, places[0])
      case Refused(f) => Played([], 0, Stopped(f))
      case Absent(text) => Delivered(Data(Str("missing:" + text)), 0, Play(k, inp, caller, places[1..], answers))
      case Stored(target) =>
        if answers == [] || answers[0].path != target then Played([], 0, Waiting(target))
        else if answers[0].outcome.Failed? then Played([], 1, Stopped(answers[0].outcome.failure))
        else Delivered(answers[0].outcome.value, 1, Play(k, inp, caller, places[1..], answers[1..]))
  }

  lemma {:induction false} PlayBounds(k: Kernel, inp: Inputs, caller: Path, places: seq<Place>, answers: seq<Read>)
    ensures var r := Play(k, inp, caller, places, answers);
            r.used <= |answers| && |r.values| <= |places| && (r.ending.Finished? ==> |r.values| == |places|)
    decreases |places|
  {
    if places != [] {
      match Meaning(k, inp, caller, places[0])
      case Refused(_) =>
      case Absent(_) => PlayBounds(k, inp, caller, places[1..], answers);
      case Stored(_) =>
        if answers != [] {
          PlayBounds(k, inp, caller, places[1..], answers[1..]);
        }
    }
  }

  lemma DeliveredThen(v: Value, n: nat, first: Played, second: Played)
    ensures Delivered(v, n, first).used == n + first.used && Delivered(v, n, first).ending == first.ending
    ensures Delivered(v, n, Played(first.values + second.values, first.used + second.used, second.ending))
            == Played(Delivered(v, n, first).values + second.values, n + first.used + second.used, second.ending)
  {
    assert [v] + (first.values + second.values) == [v] + first.values + second.values;
  }

  /** Reading two rows of places is reading one after the other. */
  lemma {:induction false} PlayBoth(k: Kernel, inp: Inputs, caller: Path, a: seq<Place>, b: seq<Place>, answers: seq<Read>)
    ensures var first, both := Play(k, inp, caller, a, answers), Play(k, inp, caller, a + b, answers);
            && first.used <= |answers|
            && (!first.ending.Finished? ==> both == first)
            && (first.ending.Finished? ==>
                  var second := Play(k, inp, caller, b, answers[first.used..]);
                  both == Played(first.values + second.values, first.used + second.used, second.ending))
    decreases |a|
  {
    PlayBounds(k, inp, caller, a, answers);
    hide Meaning;
    if a == [] {
      assert a + b == b && answers[0..] == answers;
    } else {
      PlayFirst(k, inp, caller, a + b, answers);
      PlayFirst(k, inp, caller, a, answers);
      hide Play, Delivered;
      assert (a + b)[0] == a[0] && (a + b)[1..] == a[1..] + b;
      match Meaning(k, inp, caller, a[0])
      case Refused(_) =>
      case Absent(text) =>
        PlayBoth(k, inp, caller, a[1..], b, answers);
        var first := Play(k, inp, caller, a[1..], answers);
        DeliveredThen(Data(Str("missing:" + text)), 0, first, Play(k, inp, caller, b, answers[first.used..]));
      case Stored(_) =>
        if answers != [] && answers[0].outcome.Success? {
          PlayBoth(k, inp, caller, a[1..], b, answers[1..]);
          var first := Play(k, inp, caller, a[1..], answers[1..]);
          assert answers[1..][first.used..] == answers[1 + first.used..];
          DeliveredThen(answers[0].outcome.value, 1, first, Play(k, inp, caller, b, answers[1 + first.used..]));
        }
    }
  }

  lemma PlayFirst(k: Kernel, inp: Inputs, caller: Path, places: seq<Place>, answers: seq<Read>)
    requires places != []
    ensures var r, found := Play(k, inp, caller, places, answers), Meaning(k, inp, caller, places[0]);
            && (found.Refused? ==> r == Played([], 0, Stopped(found.failure)))
            && (found.Absent? ==> r == Delivered(Data(Str("missing:" + found.text)), 0, Play(k, inp, caller, places[1..], answers)))
            && (found.Stored? ==>
                  if answers == [] || answers[0].path != found.target then r == Played([], 0, Waiting(found.target))
                  else if answers[0].outcome.Failed? then r == Played([], 1, Stopped(answers[0].outcome.failure))
                  else r == Delivered(answers[0].outcome.value, 1, Play(k, inp, caller, places[1..], answers[1..])))
  {
  }

  // ---- The walk does just that ----

  /** The values read so far are bound to their names and to nothing else. */
  ghost predicate Holds(fr: Frame, values: seq<Value>) {
    && fr.index == |values|
    && (forall m :: 0 <= m < |values| ==> ValueName(m) in fr.deps && fr.deps[ValueName(m)] == values[m])
    && (forall s :: s in fr.deps ==> exists m :: 0 <= m < |values| && s == ValueName(m))
  }

  lemma ValueNamesDiffer(m: nat, n: nat)
    requires ValueName(m) == ValueName(n)
    ensures m == n
  {
    DigitsParse(m);
    DigitsParse(n);
    assert ValueName(m).name[6..] == Digits(m) && ValueName(n).name[6..] == Digits(n);
  }

  lemma BoundIsNotFree(k: Kernel, inp: Inputs, fr: Frame, values: seq<Value>, s: Symbol)
    requires Holds(fr, values)
    ensures IsBound(k, inp, fr.deps, s) <==> !Free(k, inp, |values|, s)
  {
    hide Digits;
    assert s in inp.Bindings() <==> s in inp.boundValues || (s.space.None? && s.name in inp.boundNames);
  }

  /** One more value under the next name. */
  lemma OneMoreHeld(fr: Frame, values: seq<Value>, v: Value, out: Frame)
    requires Holds(fr, values) && out.index == fr.index + 1 && out.deps == fr.deps[ValueName(fr.index) := v]
    ensures Holds(out, values + [v])
  {
    hide ValueName;
    forall m | 0 <= m < |values| ensures ValueName(m) != ValueName(fr.index) {
      if ValueName(m) == ValueName(fr.index) {
        ValueNamesDiffer(m, fr.index);
      }
    }
    forall s | s in out.deps ensures exists m :: 0 <= m < |values + [v]| && s == ValueName(m) {
      if s == ValueName(fr.index) {
        assert fr.index < |values + [v]|;
      } else {
        var m :| 0 <= m < |values| && s == ValueName(m);
        assert m < |values + [v]|;
      }
    }
  }

  /** A read ends as its verdict says and leaves the values alone. */
  ghost predicate ReadsAs(r: Step<Outcome>, v: Verdict, fr: Frame, answers: seq<Read>) {
    && r.frame.deps == fr.deps && r.frame.index == fr.index
    && match v
       case Refused(f) => r.Abort? && r.failure == f && r.frame.used == fr.used
       case Absent(text) => r.Go? && r.value == Success(Data(Str("missing:" + text))) && r.frame.used == fr.used
       case Stored(target) =>
         if fr.used < |answers| && answers[fr.used].path == target
         then r.Go? && r.value == answers[fr.used].outcome && r.frame.used == fr.used + 1
         else r.Wait? && r.target == target && r.frame.used == fr.used
  }

  lemma NearestIsOne(cells: set<Path>, dir: Path, name: string, m: nat, n: nat)
    requires IsNearest(cells, dir, name, m) && IsNearest(cells, dir, name, n)
    ensures m == n
  {
  }

  lemma BareMeans(cells: set<Path>, dir: Path, name: string)
    ensures match LookupFrom(cells, dir, name).result
            case Found(target) => BareMeaning(cells, dir, name) == Stored(target)
            case Unresolved => BareMeaning(cells, dir, name) == Absent(name)
            case IllegalName => BareMeaning(cells, dir, name).Refused?
  {
    if LegalSegment(name) {
      NearestAncestorWins(cells, dir, name);
      hide LookupFrom;
      match LookupFrom(cells, dir, name).result
      case Found(target) =>
        var i: nat :| i <= |dir| && target == dir[..i] + [name] && target in cells && forall j :: i < j <= |dir| ==> dir[..j] + [name] !in cells;
        assert IsNearest(cells, dir, name, i);
        var n: nat :| IsNearest(cells, dir, name, n) && BareMeaning(cells, dir, name) == Stored(dir[..n] + [name]);
        NearestIsOne(cells, dir, name, n, i);
      case Unresolved =>
        assert forall n: nat :: !IsNearest(cells, dir, name, n);
    }
  }

  lemma BareReadsAs(inp: Inputs, caller: Path, s: Symbol, fr: Frame, answers: seq<Read>)
    ensures ReadsAs(ResolveBare(inp, caller, s, fr, answers), BareMeaning(inp.cells.Keys, Parent(caller), s.Text()), fr, answers)
  {
    BareMeans(inp.cells.Keys, Parent(caller), s.Text());
    assert LegalSegment(s.Text()) || BareMeaning(inp.cells.Keys, Parent(caller), s.Text()) == Refused(Evaluation("invalid bare cell name " + s.Text()));
    hide LookupFrom, BareMeaning, LegalSegment;
  }

  lemma TextReadsAs(k: Kernel, inp: Inputs, caller: Path, text: string, fr: Frame, answers: seq<Read>)
    ensures match k.resolve(Parent(caller), text)
            case Err(m) => ReferenceMeaning(k, inp, Parent(caller), text) == Refused(Evaluation(m))
            case Ok(target) => ReadsAs(ResolveTarget(inp, target, fr, answers), ReferenceMeaning(k, inp, Parent(caller), text), fr, answers)
  {
    hide LookupSteps;
  }

  lemma ReferenceReadsAs(k: Kernel, inp: Inputs, caller: Path, args: seq<Expr>, fr: Frame, answers: seq<Read>)
    ensures ReadsAs(ResolveReference(k, inp, caller, args, fr, answers), Meaning(k, inp, caller, Reference(args)), fr, answers)
  {
    hide ResolveTarget, ReferenceMeaning, BareMeaning;
    if |args| == 1 && args[0].Str? {
      TextReadsAs(k, inp, caller, args[0].text, fr, answers);
    } else if |args| == 1 && args[0].Sym? {
      TextReadsAs(k, inp, caller, args[0].symbol.Text(), fr, answers);
    }
  }

  /** The walk over an expression has gone as the reading of its places did. */
  ghost predicate Agrees<T>(r: Step<T>, value: T, played: Played, fr: Frame, before: seq<Value>) {
    && r.frame.used == fr.used + played.used
    && match played.ending
       case Finished => r.Go? && r.value == value && Holds(r.frame, before + played.values)
       case Stopped(f) => r.Abort? && r.failure == f
       case Waiting(target) => r.Wait? && r.target == target
  }

  lemma BindingAgreesWith(k: Kernel, inp: Inputs, caller: Path, place: Place, r: Step<Outcome>, fr: Frame, before: seq<Value>, answers: seq<Read>)
    requires Holds(fr, before) && fr.used <= |answers|
    requires ReadsAs(r, Meaning(k, inp, caller, place), fr, answers)
    ensures Agrees(BindDependency(r), Sym(ValueName(|before|)), Play(k, inp, caller, [place], answers[fr.used..]), fr, before)
  {
    hide Meaning;
    assert [place][1..] == [];
    var played := Play(k, inp, caller, [place], answers[fr.used..]);
    if r.Go? && r.value.Success? {
      OneMoreHeld(fr, before, r.value.value, BindDependency(r).frame);
      assert played.values == [r.value.value] + [] == [r.value.value];
    }
  }

  /** Parts before and after: what agrees with each agrees with both. */
  lemma BothAgree<T, U, V>(r: Step<T>, x: T, a: Played, s: Step<U>, y: U, b: Played, both: Step<V>, z: V, fr: Frame, before: seq<Value>)
    requires Agrees(r, x, a, fr, before)
    requires r.Go? ==> Agrees(s, y, b, r.frame, before + a.values)
    requires r.Abort? ==> both.Abort? && both.failure == r.failure && both.frame == r.frame
    requires r.Wait? ==> both.Wait? && both.target == r.target && both.frame == r.frame
    requires r.Go? && s.Go? && r.value == x && s.value == y ==> both == Go(z, s.frame)
    requires r.Go? && s.Abort? ==> both == Abort(s.failure, s.frame)
    requires r.Go? && s.Wait? ==> both == Wait(s.target, s.frame)
    ensures Agrees(both, z, if a.ending.Finished? then Played(a.values + b.values, a.used + b.used, b.ending) else a, fr, before)
  {
    assert before + a.values + b.values == before + (a.values + b.values);
    hide Holds;
  }

  /** The walk over one expression agrees with its places and its spelling. */
  ghost predicate Plays(k: Kernel, inp: Inputs, caller: Path, e: Expr, depth: nat, fr: Frame, before: seq<Value>, answers: seq<Read>)
    requires fr.used <= |answers|
  {
    Agrees(Prepare(k, inp, caller, e, depth, fr, answers), Spelling(k, inp, e, depth, |before|),
           Play(k, inp, caller, Places(k, inp, e, depth, |before|), answers[fr.used..]), fr, before)
  }

  ghost predicate PlaysAll(k: Kernel, inp: Inputs, caller: Path, context: Expr, items: seq<Expr>, depth: nat, fr: Frame,
                           before: seq<Value>, answers: seq<Read>)
    requires forall i :: 0 <= i < |items| ==> items[i] < context
    requires fr.used <= |answers|
  {
    Agrees(PrepareItems(k, inp, caller, context, items, depth, fr, answers), SpellingOf(k, inp, items, depth, |before|),
           Play(k, inp, caller, PlacesOf(k, inp, items, depth, |before|), answers[fr.used..]), fr, before)
  }

  lemma SymbolPlays(k: Kernel, inp: Inputs, caller: Path, e: Expr, depth: nat, fr: Frame, before: seq<Value>, answers: seq<Read>)
    requires Holds(fr, before) && fr.used <= |answers| && e.Sym? && depth <= 128
    ensures Plays(k, inp, caller, e, depth, fr, before, answers)
  {
    BoundIsNotFree(k, inp, fr, before, e.symbol);
    hide Free, IsBound, ResolveBare, ValueName, BareMeaning, BindDependency, ReadsAs;
    var seen := fr.See([NameSlot(e.symbol.Text())]);
    SeenHolds(fr, seen, before);
    if Free(k, inp, |before|, e.symbol) {
      BareReadsAs(inp, caller, e.symbol, seen, answers);
      BindingAgreesWith(k, inp, caller, Bare(e.symbol), ResolveBare(inp, caller, e.symbol, seen, answers), seen, before, answers);
      hide Holds, Play;
    } else {
      assert before + [] == before;
    }
  }

  lemma ReferencePlaces(k: Kernel, inp: Inputs, e: Expr, depth: nat, n: nat)
    requires IsReference(e) && depth <= 128
    ensures Places(k, inp, e, depth, n) == [Reference(e.args)] && Spelling(k, inp, e, depth, n) == Sym(ValueName(n))
  {
  }

  lemma ReferencePlays(k: Kernel, inp: Inputs, caller: Path, e: Expr, depth: nat, fr: Frame, before: seq<Value>, answers: seq<Read>)
    requires Holds(fr, before) && fr.used <= |answers| && IsReference(e) && depth <= 128
    ensures Plays(k, inp, caller, e, depth, fr, before, answers)
  {
    ReferencePlaces(k, inp, e, depth, |before|);
    hide ResolveReference, Meaning, ValueName, BindDependency, Places, Spelling, Holds, Play, ReadsAs;
    ReferenceReadsAs(k, inp, caller, e.args, fr, answers);
    BindingAgreesWith(k, inp, caller, Reference(e.args), ResolveReference(k, inp, caller, e.args, fr, answers), fr, before, answers);
  }

  lemma OtherPlays(k: Kernel, inp: Inputs, caller: Path, e: Expr, depth: nat, fr: Frame, before: seq<Value>, answers: seq<Read>)
    requires Holds(fr, before) && fr.used <= |answers| && (depth > 128 || !(e.Sym? || IsReference(e) || IsWalked(e)))
    ensures Plays(k, inp, caller, e, depth, fr, before, answers)
  {
    hide Holds;
    assert before + [] == before;
  }

  lemma WalkedPlays(k: Kernel, inp: Inputs, caller: Path, e: Expr, depth: nat, fr: Frame, before: seq<Value>, answers: seq<Read>)
    requires Holds(fr, before) && fr.used <= |answers| && depth <= 128 && IsWalked(e) && !IsReference(e)
    requires PlaysAll(k, inp, caller, e, Walked(e), depth + 1, fr, before, answers)
    ensures Plays(k, inp, caller, e, depth, fr, before, answers)
  {
    WalkedPlaces(k, inp, e, depth, |before|);
    hide Places, PlacesOf, Spelling, SpellingOf, Play, Holds, Walked, Rebuild, PrepareItems;
  }

  /** The walk reads the places of the expression in order, stops where that stops, and
      otherwise gives the spelling with every value bound to its name. */
  lemma {:induction false} PreparationPlays(k: Kernel, inp: Inputs, caller: Path, e: Expr, depth: nat, fr: Frame, before: seq<Value>, answers: seq<Read>)
    requires Holds(fr, before) && fr.used <= |answers|
    ensures Plays(k, inp, caller, e, depth, fr, before, answers)
    decreases e
  {
    hide Plays, PlaysAll, Holds;
    if depth > 128 || !(e.Sym? || IsReference(e) || IsWalked(e)) {
      OtherPlays(k, inp, caller, e, depth, fr, before, answers);
    } else if e.Sym? {
      SymbolPlays(k, inp, caller, e, depth, fr, before, answers);
    } else if IsReference(e) {
      ReferencePlays(k, inp, caller, e, depth, fr, before, answers);
    } else {
      ItemsPlay(k, inp, caller, e, Walked(e), depth + 1, fr, before, answers);
      WalkedPlays(k, inp, caller, e, depth, fr, before, answers);
    }
  }

  lemma SeenHolds(fr: Frame, seen: Frame, values: seq<Value>)
    requires Holds(fr, values) && seen.deps == fr.deps && seen.index == fr.index
    ensures Holds(seen, values)
  {
  }

  lemma OneMorePart(k: Kernel, inp: Inputs, x: Expr, xs: seq<Expr>, depth: nat, n: nat)
    ensures var first := Places(k, inp, x, depth, n);
            && PlacesOf(k, inp, [x] + xs, depth, n) == first + PlacesOf(k, inp, xs, depth, n + |first|)
            && SpellingOf(k, inp, [x] + xs, depth, n) == [Spelling(k, inp, x, depth, n)] + SpellingOf(k, inp, xs, depth, n + |first|)
  {
    assert ([x] + xs)[1..] == xs;
    hide Places, Spelling;
  }

  lemma CallPlaces(k: Kernel, inp: Inputs, operator: Expr, args: seq<Expr>, depth: nat, n: nat)
    requires !CallsReference(operator) && depth <= 128
    ensures Places(k, inp, Call(operator, args), depth, n) == PlacesOf(k, inp, [operator] + args, depth + 1, n)
    ensures var parts := SpellingOf(k, inp, [operator] + args, depth + 1, n);
            parts != [] && Spelling(k, inp, Call(operator, args), depth, n) == Call(parts[0], parts[1..])
  {
    hide PlacesOf, SpellingOf;
    OneMorePart(k, inp, operator, args, depth + 1, n);
  }

  lemma AnnotatedPlaces(k: Kernel, inp: Inputs, inner: Expr, annotations: seq<Annotation>, depth: nat, n: nat)
    requires depth <= 128
    ensures Places(k, inp, Annotated(inner, annotations), depth, n) == PlacesOf(k, inp, [inner], depth + 1, n)
    ensures var parts := SpellingOf(k, inp, [inner], depth + 1, n);
            |parts| == 1 && Spelling(k, inp, Annotated(inner, annotations), depth, n) == Annotated(parts[0], annotations)
  {
    NoParts(k, inp, depth + 1, n + |Places(k, inp, inner, depth + 1, n)|);
    hide PlacesOf, SpellingOf;
    assert [inner] + [] == [inner];
    OneMorePart(k, inp, inner, [], depth + 1, n);
  }

  lemma MapPlaces(k: Kernel, inp: Inputs, entries: seq<Entry>, depth: nat, n: nat)
    requires depth <= 128
    ensures Places(k, inp, Map(entries), depth, n) == PlacesOf(k, inp, EntryParts(entries), depth + 1, n)
    ensures var parts := SpellingOf(k, inp, EntryParts(entries), depth + 1, n);
            |parts| % 2 == 0 && Spelling(k, inp, Map(entries), depth, n) == Map(Paired(parts))
  {
    EntryPlaces(k, inp, entries, depth + 1, n);
    PairedBack(SpellingIn(k, inp, entries, depth + 1, n));
    hide PlacesOf, SpellingOf, PlacesIn, SpellingIn, Paired, EntryParts;
  }

  /** The places and the spelling of a form that is walked are those of its parts. */
  lemma WalkedPlaces(k: Kernel, inp: Inputs, e: Expr, depth: nat, n: nat)
    requires IsWalked(e) && !IsReference(e) && depth <= 128
    ensures Places(k, inp, e, depth, n) == PlacesOf(k, inp, Walked(e), depth + 1, n)
    ensures Spelling(k, inp, e, depth, n) == Rebuild(e, SpellingOf(k, inp, Walked(e), depth + 1, n))
  {
    hide PlacesOf, SpellingOf, PlacesIn, SpellingIn, Paired, EntryParts;
    if e.Call? {
      hide Places, Spelling;
      CallPlaces(k, inp, e.operator, e.args, depth, n);
    } else if e.Annotated? {
      hide Places, Spelling;
      AnnotatedPlaces(k, inp, e.inner, e.annotations, depth, n);
    } else if e.Map? {
      hide Places, Spelling;
      MapPlaces(k, inp, e.entries, depth, n);
    }
  }

  lemma NoParts(k: Kernel, inp: Inputs, depth: nat, n: nat)
    ensures PlacesOf(k, inp, [], depth, n) == [] && SpellingOf(k, inp, [], depth, n) == []
  {
  }

  lemma OneMoreEntry(k: Kernel, inp: Inputs, entries: seq<Entry>, depth: nat, n: nat)
    requires entries != []
    ensures var key, value := entries[0].key, entries[0].value;
            var afterKey := n + |Places(k, inp, key, depth, n)|;
            var afterValue := afterKey + |Places(k, inp, value, depth, afterKey)|;
            && PlacesIn(k, inp, entries, depth, n)
               == Places(k, inp, key, depth, n) + Places(k, inp, value, depth, afterKey) + PlacesIn(k, inp, entries[1..], depth, afterValue)
            && EntryParts(SpellingIn(k, inp, entries, depth, n))
               == [Spelling(k, inp, key, depth, n)] + ([Spelling(k, inp, value, depth, afterKey)]
                  + EntryParts(SpellingIn(k, inp, entries[1..], depth, afterValue)))
  {
    hide Places, Spelling;
    var key, value := entries[0].key, entries[0].value;
    var afterKey := n + |Places(k, inp, key, depth, n)|;
    var afterValue := afterKey + |Places(k, inp, value, depth, afterKey)|;
    assert SpellingIn(k, inp, entries, depth, n)[1..] == SpellingIn(k, inp, entries[1..], depth, afterValue);
  }

  lemma TwoMoreParts(k: Kernel, inp: Inputs, a: Expr, b: Expr, rest: seq<Expr>, depth: nat, n: nat)
    ensures var past := n + |Places(k, inp, a, depth, n)|;
            var after := past + |Places(k, inp, b, depth, past)|;
            && PlacesOf(k, inp, [a] + ([b] + rest), depth, n)
               == Places(k, inp, a, depth, n) + Places(k, inp, b, depth, past) + PlacesOf(k, inp, rest, depth, after)
            && SpellingOf(k, inp, [a] + ([b] + rest), depth, n)
               == [Spelling(k, inp, a, depth, n)] + ([Spelling(k, inp, b, depth, past)] + SpellingOf(k, inp, rest, depth, after))
  {
    var past := n + |Places(k, inp, a, depth, n)|;
    OneMorePart(k, inp, a, [b] + rest, depth, n);
    OneMorePart(k, inp, b, rest, depth, past);
    hide Places, Spelling, PlacesOf, SpellingOf;
  }

  lemma FirstParts(entries: seq<Entry>)
    requires entries != []
    ensures EntryParts(entries) == [entries[0].key] + ([entries[0].value] + EntryParts(entries[1..]))
  {
  }

  lemma {:induction false} EntryPlaces(k: Kernel, inp: Inputs, entries: seq<Entry>, depth: nat, n: nat)
    ensures PlacesIn(k, inp, entries, depth, n) == PlacesOf(k, inp, EntryParts(entries), depth, n)
    ensures EntryParts(SpellingIn(k, inp, entries, depth, n)) == SpellingOf(k, inp, EntryParts(entries), depth, n)
    decreases |entries|
  {
    if entries == [] {
      hide Places, Spelling;
    } else {
      hide Places, Spelling, PlacesOf, SpellingOf, PlacesIn, SpellingIn, EntryParts;
      var key, value, rest := entries[0].key, entries[0].value, EntryParts(entries[1..]);
      var afterKey := n + |Places(k, inp, key, depth, n)|;
      var afterValue := afterKey + |Places(k, inp, value, depth, afterKey)|;
      EntryPlaces(k, inp, entries[1..], depth, afterValue);
      FirstParts(entries);
      TwoMoreParts(k, inp, key, value, rest, depth, n);
      OneMoreEntry(k, inp, entries, depth, n);
    }
  }

  lemma {:induction false} PairedBack(entries: seq<Entry>)
    ensures Paired(EntryParts(entries)) == entries
  {
    if entries != [] {
      PairedBack(entries[1..]);
      assert EntryParts(entries)[2..] == EntryParts(entries[1..]);
    }
  }

  lemma {:induction false} ItemsPlay(k: Kernel, inp: Inputs, caller: Path, context: Expr, items: seq<Expr>, depth: nat, fr: Frame,
                                     before: seq<Value>, answers: seq<Read>)
    requires forall i :: 0 <= i < |items| ==> items[i] < context
    requires Holds(fr, before) && fr.used <= |answers|
    ensures PlaysAll(k, inp, caller, context, items, depth, fr, before, answers)
    decreases context, |items|
  {
    hide Places, Spelling, Prepare, Holds;
    if items == [] {
      assert before + [] == before;
    } else {
      PreparationPlays(k, inp, caller, items[0], depth, fr, before, answers);
      var first := Prepare(k, inp, caller, items[0], depth, fr, answers);
      var here := Places(k, inp, items[0], depth, |before|);
      var a := Play(k, inp, caller, here, answers[fr.used..]);
      PlayBounds(k, inp, caller, here, answers[fr.used..]);
      if first.Go? {
        ItemsPlay(k, inp, caller, context, items[1..], depth, first.frame, before + a.values, answers);
      }
      ItemsJoin(k, inp, caller, context, items, depth, fr, before, answers);
    }
  }

  lemma ItemsJoin(k: Kernel, inp: Inputs, caller: Path, context: Expr, items: seq<Expr>, depth: nat, fr: Frame,
                  before: seq<Value>, answers: seq<Read>)
    requires items != [] && forall i :: 0 <= i < |items| ==> items[i] < context
    requires fr.used <= |answers| && Plays(k, inp, caller, items[0], depth, fr, before, answers)
    requires var first := Prepare(k, inp, caller, items[0], depth, fr, answers);
             var a := Play(k, inp, caller, Places(k, inp, items[0], depth, |before|), answers[fr.used..]);
             first.Go? ==>
               first.frame.used <= |answers|
               && PlaysAll(k, inp, caller, context, items[1..], depth, first.frame, before + a.values, answers)
    ensures PlaysAll(k, inp, caller, context, items, depth, fr, before, answers)
  {
    hide Places, PlacesOf, Spelling, SpellingOf, Prepare, Holds, Play;
    var n, later := |before|, answers[fr.used..];
    var here := Places(k, inp, items[0], depth, n);
    var rest := PlacesOf(k, inp, items[1..], depth, n + |here|);
    var first := Prepare(k, inp, caller, items[0], depth, fr, answers);
    var both := PrepareItems(k, inp, caller, context, items, depth, fr, answers);
    var a := Play(k, inp, caller, here, later);
    PlayBoth(k, inp, caller, here, rest, later);
    PlayBounds(k, inp, caller, here, later);
    assert items == [items[0]] + items[1..];
    OneMorePart(k, inp, items[0], items[1..], depth, n);
    var b := Play(k, inp, caller, rest, later[a.used..]);
    if first.Go? {
      assert later[a.used..] == answers[first.frame.used..];
      var second := PrepareItems(k, inp, caller, context, items[1..], depth, first.frame, answers);
      BothAgree(first, Spelling(k, inp, items[0], depth, n), a, second, SpellingOf(k, inp, items[1..], depth, n + |here|), b,
                both, SpellingOf(k, inp, items, depth, n), fr, before);
    }
  }

  // ---- What the evaluator is shown ----

  /** The symbols in the positions that are walked. */
  function Mentioned(e: Expr): set<Symbol>
    decreases e
  {
    match e
    case Sym(s) => {s}
    case Call(operator, args) => Mentioned(operator) + MentionedOf(args)
    case List(items) => MentionedOf(items)
    case Vector(items) => MentionedOf(items)
    case Set(items) => MentionedOf(items)
    case Block(items) => MentionedOf(items)
    case Map(entries) => MentionedIn(entries)
    case Annotated(inner, _) => Mentioned(inner)
    case _ => {}
  }

  function MentionedOf(items: seq<Expr>): set<Symbol>
    decreases items
  {
    if items == [] then {} else Mentioned(items[0]) + MentionedOf(items[1..])
  }

  function MentionedIn(entries: seq<Entry>): set<Symbol>
    decreases entries
  {
    if entries == [] then {}
    else
      assert entries[0].key < entries[0] && entries[0].value < entries[0];
      Mentioned(entries[0].key) + Mentioned(entries[0].value) + MentionedIn(entries[1..])
  }

  /** What a symbol stands for once these values have been read: the value of that
      name, else a bound value, else the marker of a bound name, else the host's. */
  ghost predicate Means(k: Kernel, inp: Inputs, values: seq<Value>, s: Symbol, v: Value) {
    if exists m :: 0 <= m < |values| && s == ValueName(m) then exists m :: 0 <= m < |values| && s == ValueName(m) && v == values[m]
    else if s in inp.boundValues then v == inp.boundValues[s]
    else if s.space.None? && s.name in inp.boundNames then v == Data(Str("bound:" + s.name))
    else s in k.base && v == k.base[s]
  }

  /** The evaluator is shown exactly the symbols of the form it evaluates, each as
      what it means. */
  ghost predicate Shows(k: Kernel, inp: Inputs, values: seq<Value>, e: Expr, shown: map<Symbol, Value>) {
    shown.Keys == Mentioned(e) && forall s :: s in shown ==> Means(k, inp, values, s, shown[s])
  }

  lemma {:induction false} NamesAreMentioned(e: Expr)
    ensures Names(e) == Mentioned(e)
    decreases e
  {
    if IsWalked(e) {
      NamesOfAreMentioned(e, Walked(e));
      match e
      case Call(operator, args) => assert Walked(e)[1..] == args;
      case Annotated(inner, _) => assert Walked(e)[1..] == [];
      case Map(entries) => MentionedParts(entries);
      case _ =>
    }
  }

  lemma {:induction false} NamesOfAreMentioned(context: Expr, items: seq<Expr>)
    requires forall i :: 0 <= i < |items| ==> items[i] < context
    ensures NamesOf(context, items) == MentionedOf(items)
    decreases context, |items|
  {
    hide Names, Mentioned;
    if items != [] {
      NamesAreMentioned(items[0]);
      NamesOfAreMentioned(context, items[1..]);
    }
  }

  lemma {:induction false} MentionedParts(entries: seq<Entry>)
    ensures MentionedIn(entries) == MentionedOf(EntryParts(entries))
    decreases |entries|
  {
    hide Mentioned;
    if entries != [] {
      MentionedParts(entries[1..]);
      var parts := EntryParts(entries);
      assert parts[1..][0] == entries[0].value && parts[1..][1..] == EntryParts(entries[1..]);
    }
  }

  lemma RebuiltMentions(e: Expr, parts: seq<Expr>)
    requires IsWalked(e) && |parts| == |Walked(e)|
    ensures Mentioned(Rebuild(e, parts)) == MentionedOf(parts)
  {
    hide Walked, Rebuild, Mentioned, MentionedOf;
    var r := Rebuild(e, parts);
    NamesAreMentioned(r);
    NamesOfAreMentioned(r, Walked(r));
    assert !r.Sym?;
  }

  lemma DeepPlace(k: Kernel, inp: Inputs, e: Expr, depth: nat, n: nat)
    ensures depth > 128 ==> TooDeep in Places(k, inp, e, depth, n)
  {
    assert TooDeep in [TooDeep];
  }

  /** What is spelled out once everything has been read leaves nothing unbound. */
  lemma {:induction false} SpelledIsBound(k: Kernel, inp: Inputs, e: Expr, depth: nat, n: nat, total: nat)
    requires TooDeep !in Places(k, inp, e, depth, n) && n + |Places(k, inp, e, depth, n)| <= total
    ensures forall s :: s in Mentioned(Spelling(k, inp, e, depth, n)) ==> !Free(k, inp, total, s)
    decreases e
  {
    DeepPlace(k, inp, e, depth, n);
    if e.Sym? {
      hide Digits;
    } else if IsReference(e) {
      ReferencePlaces(k, inp, e, depth, n);
    } else if IsWalked(e) {
      WalkedPlaces(k, inp, e, depth, n);
      hide Places, PlacesOf, Spelling, SpellingOf, Mentioned, MentionedOf, Walked, Rebuild, Free;
      RebuiltMentions(e, SpellingOf(k, inp, Walked(e), depth + 1, n));
      SpelledAreBound(k, inp, e, Walked(e), depth + 1, n, total);
    } else {
      hide Free;
    }
  }

  lemma {:induction false} SpelledAreBound(k: Kernel, inp: Inputs, context: Expr, items: seq<Expr>, depth: nat, n: nat, total: nat)
    requires forall i :: 0 <= i < |items| ==> items[i] < context
    requires TooDeep !in PlacesOf(k, inp, items, depth, n) && n + |PlacesOf(k, inp, items, depth, n)| <= total
    ensures forall s :: s in MentionedOf(SpellingOf(k, inp, items, depth, n)) ==> !Free(k, inp, total, s)
    decreases context, |items|
  {
    hide Places, Spelling, Mentioned, Free;
    if items != [] {
      var first := Places(k, inp, items[0], depth, n);
      assert PlacesOf(k, inp, items, depth, n) == first + PlacesOf(k, inp, items[1..], depth, n + |first|);
      SpelledIsBound(k, inp, items[0], depth, n, total);
      SpelledAreBound(k, inp, context, items[1..], depth, n + |first|, total);
      var spelled := SpellingOf(k, inp, items, depth, n);
      assert spelled[0] == Spelling(k, inp, items[0], depth, n) && spelled[1..] == SpellingOf(k, inp, items[1..], depth, n + |first|);
    }
  }

  lemma {:induction false} FinishedIsShallow(k: Kernel, inp: Inputs, caller: Path, places: seq<Place>, answers: seq<Read>)
    requires Play(k, inp, caller, places, answers).ending.Finished?
    ensures TooDeep !in places
    decreases |places|
  {
    if places != [] {
      PlayFirst(k, inp, caller, places, answers);
      hide Play;
      FinishedIsShallow(k, inp, caller, places[1..], if Meaning(k, inp, caller, places[0]).Absent? then answers else answers[1..]);
      assert places == [places[0]] + places[1..];
    }
  }

  lemma EnvironmentShows(k: Kernel, inp: Inputs, fr: Frame, values: seq<Value>, e: Expr)
    requires Holds(fr, values) && forall s :: s in Mentioned(e) ==> !Free(k, inp, |values|, s)
    ensures Shows(k, inp, values, e, Environment(k, inp, fr.deps, Names(e)))
  {
    NamesAreMentioned(e);
    hide Names, Mentioned, ValueName;
    forall s | s in Mentioned(e)
      ensures IsBound(k, inp, fr.deps, s) && Means(k, inp, values, s, Binding(k, inp, fr.deps, s))
    {
      BoundIsNotFree(k, inp, fr, values, s);
      BindingMeans(k, inp, fr, values, s);
    }
  }

  lemma BindingMeans(k: Kernel, inp: Inputs, fr: Frame, values: seq<Value>, s: Symbol)
    requires Holds(fr, values) && IsBound(k, inp, fr.deps, s)
    ensures Means(k, inp, values, s, Binding(k, inp, fr.deps, s))
  {
    hide ValueName;
    if m :| 0 <= m < |values| && s == ValueName(m) {
      assert fr.deps[ValueName(m)] == values[m];
    } else {
      assert s !in fr.deps;
      assert s in inp.Bindings() <==> s in inp.boundValues || (s.space.None? && s.name in inp.boundNames);
    }
  }

  // ---- What a cell evaluates to ----

  /** The trigger lets the cell run in such a request. */
  predicate Runs(trigger: Trigger, automatic: bool, directed: bool) {
    trigger.Automatic? || (!automatic && (trigger.OnDemand? || (trigger.Manual? && directed)))
  }

  /** The reason a trigger gives when it does not let the cell run. */
  function WhyNot(trigger: Trigger, automatic: bool): string {
    if trigger.Frozen? then "frozen policy forbids new calculation work"
    else if trigger.OnDemand? then "on-demand cells do not run from automatic mutation"
    else if automatic then "manual cells require an explicit directed root"
    else "manual dependency was not an explicitly directed root"
  }

  /** Before anything of the source is looked at: the trigger, then the required
      capabilities in their order, then whether there is a source. */
  lemma GateMeans(k: Kernel, inp: Inputs, automatic: bool, directed: bool, cell: Path, answers: seq<Read>)
    ensures var r, authority := Body(k, inp, automatic, directed, cell, answers), inp.AuthorityOf(cell);
            if !Runs(inp.CalcPolicyOf(cell).trigger, automatic, directed)
            then r.Done? && r.outcome == Failed(Blocked(cell, WhyNot(inp.CalcPolicyOf(cell).trigger, automatic))) && r.frame.used == 0
            else if !(authority.required <= authority.capabilities)
            then r.Done? && r.frame.used == 0 && r.outcome.Failed? && r.outcome.failure.RequiredCapability? && r.outcome.failure.path == cell
                 && r.outcome.failure.capability in authority.required - authority.capabilities
                 && forall c :: c in authority.required - authority.capabilities ==> r.outcome.failure.capability <= c
            else cell !in inp.cells ==> r.Done? && r.frame.used == 0 && r.outcome == Success(Data(Str("missing:" + Paths.Key(cell))))
  {
    FirstMissingIs(inp.AuthorityOf(cell));
    hide Evaluate, FirstMissing;
  }

  /** What running the form that was spelled out answers. */
  ghost predicate EvaluatesTo(k: Kernel, inp: Inputs, values: seq<Value>, form: Expr, capabilities: set<Capability>, o: Outcome) {
    exists shown :: Shows(k, inp, values, form, shown) && o == OutcomeOf(k.eval(form, shown, capabilities))
  }

  function OutcomeOf(r: Result<Value, string>): Outcome {
    match r case Ok(v) => Success(v) case Err(m) => Failed(Evaluation(m))
  }

  /** A stored cell that may run: its expanded source is read place by place; the first
      missing answer is asked for, the first failure is the outcome up to the cycle
      policy, and otherwise the outcome is what the host answers on the spelling, shown
      the values that were read. */
  lemma EvaluationMeans(k: Kernel, inp: Inputs, automatic: bool, directed: bool, cell: Path, answers: seq<Read>)
    requires Runs(inp.CalcPolicyOf(cell).trigger, automatic, directed) && cell in inp.cells
    requires inp.AuthorityOf(cell).required <= inp.AuthorityOf(cell).capabilities
    ensures var r, capabilities := Body(k, inp, automatic, directed, cell, answers), inp.AuthorityOf(cell).capabilities;
            var expanded := k.expand(inp.cells[cell], capabilities);
            if expanded.Err? then r.Done? && r.frame.used == 0 && r.outcome == Failed(Evaluation(expanded.error))
            else
              var played := Play(k, inp, cell, Places(k, inp, expanded.value, 0, 0), answers);
              && r.frame.used == played.used
              && (played.ending.Waiting? ==> r.Need? && r.target == played.ending.target)
              && (played.ending.Stopped? ==>
                    r.Done? && r.outcome == Failed(if played.ending.failure.Cycle? && inp.CalcPolicyOf(cell).cycleMode == BlockCell
                                                   then Blocked(cell, CYCLE_REASON) else played.ending.failure))
              && (played.ending.Finished? ==>
                    r.Done? && EvaluatesTo(k, inp, played.values, Spelling(k, inp, expanded.value, 0, 0), capabilities, r.outcome))
  {
    var capabilities := inp.AuthorityOf(cell).capabilities;
    var expanded := k.expand(inp.cells[cell], capabilities);
    if expanded.Ok? {
      var fr := Frame(map[], 0, 0, RuntimeContext(cell));
      PreparationPlays(k, inp, cell, expanded.value, 0, fr, [], answers);
      assert answers[0..] == answers;
      var places := Places(k, inp, expanded.value, 0, 0);
      var played := Play(k, inp, cell, places, answers);
      hide Places, Play, Spelling, Prepare, Shows, Environment, Names, Holds;
      if played.ending.Finished? {
        var r := Prepare(k, inp, cell, expanded.value, 0, fr, answers);
        assert [] + played.values == played.values;
        PlayBounds(k, inp, cell, places, answers);
        FinishedIsShallow(k, inp, cell, places, answers);
        SpelledIsBound(k, inp, expanded.value, 0, 0, |played.values|);
        EnvironmentShows(k, inp, r.frame, played.values, r.value);
      }
    }
  }

  /** What a derivation with a value says: the places of its expanded source are read from
      its subtrees, every subtree once and in order, and the value is what the host
      answers on the spelling, shown what was read. */
  lemma DerivationMeans(k: Kernel, inp: Inputs, d: Derivation)
    requires Justified(k, inp, d) && d.outcome.Success?
    ensures var capabilities := inp.AuthorityOf(d.cell).capabilities;
            var expanded := k.expand(inp.cells[d.cell], capabilities);
            && expanded.Ok?
            && var played := Play(k, inp, d.cell, Places(k, inp, expanded.value, 0, 0), Answers(d.subs));
               && played.ending.Finished? && played.used == |d.subs|
               && EvaluatesTo(k, inp, played.values, Spelling(k, inp, expanded.value, 0, 0), capabilities, d.outcome)
  {
    hide Body, Places, Play, Spelling, EvaluatesTo, Runs;
    GateMeans(k, inp, false, true, d.cell, Answers(d.subs));
    EvaluationMeans(k, inp, false, true, d.cell, Answers(d.subs));
  }
}
