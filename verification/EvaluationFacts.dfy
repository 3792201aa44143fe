/** What evaluation hangs on. */
module EvaluationFacts {
  // The keys an evaluation recorded and the answers it got determine everything it
  // did.

  import opened Syntax
  import opened Paths
  import opened Policy
  import opened Evaluation

  ghost predicate Lexical(key: Key) {
    key.NameSlot? || key.LookupStep? || key.Listing?
  }

  ghost predicate ReadsStored(inp: Inputs, answers: seq<Read>, i: nat) {
    i < |answers| && answers[i].path in inp.cells
  }

  /** How a frame grows: keys and dependencies are only added, the added keys are
      lexical, and every consumed answer was to a read of a stored cell. */
  ghost predicate Grows(inp: Inputs, answers: seq<Read>, fr: Frame, out: Frame) {
    && fr.keys <= out.keys
    && (forall i :: |fr.keys| <= i < |out.keys| ==> Lexical(out.keys[i]))
    && fr.deps.Keys <= out.deps.Keys
    && fr.used <= out.used
    && (forall i :: fr.used <= i < out.used ==> ReadsStored(inp, answers, i))
  }

  lemma {:induction false} LookupGrows(cells: set<Path>, dir: Path, name: string)
    ensures forall i :: 0 <= i < |LookupFrom(cells, dir, name).keys| ==> Lexical(LookupFrom(cells, dir, name).keys[i])
    ensures LookupFrom(cells, dir, name).result.Found? ==> LookupFrom(cells, dir, name).result.target in cells
    decreases |dir|
  {
    if LegalSegment(name) && dir + [name] !in cells && dir != [] {
      LookupGrows(cells, Parent(dir), name);
    }
  }

  /** Bare names are lexical: the nearest directory on the way to the root that
      holds the name wins, and a miss means that none of them does. */
  lemma {:induction false} NearestAncestorWins(cells: set<Path>, dir: Path, name: string)
    requires LegalSegment(name)
    ensures match LookupFrom(cells, dir, name).result
            case Found(t) =>
              exists i :: 0 <= i <= |dir| && t == dir[..i] + [name] && t in cells
                          && forall j :: i < j <= |dir| ==> dir[..j] + [name] !in cells
            case Unresolved => forall j :: 0 <= j <= |dir| ==> dir[..j] + [name] !in cells
            case IllegalName => false
    decreases |dir|
  {
    assert dir[..|dir|] == dir;
    if dir + [name] !in cells && dir != [] {
      var up := Parent(dir);
      NearestAncestorWins(cells, up, name);
      assert forall j :: 0 <= j <= |up| ==> up[..j] == dir[..j];
    }
  }

  lemma BareGrows(inp: Inputs, caller: Path, s: Symbol, fr: Frame, answers: seq<Read>)
    ensures Grows(inp, answers, fr, ResolveBare(inp, caller, s, fr, answers).frame)
  {
    LookupGrows(inp.cells.Keys, Parent(caller), s.Text());
  }

  lemma GrowsTransitively(inp: Inputs, answers: seq<Read>, fr: Frame, mid: Frame, out: Frame)
    requires Grows(inp, answers, fr, mid) && Grows(inp, answers, mid, out)
    ensures Grows(inp, answers, fr, out)
  {
  }

  lemma ReferenceGrows(k: Kernel, inp: Inputs, caller: Path, args: seq<Expr>, fr: Frame, answers: seq<Read>)
    ensures Grows(inp, answers, fr, ResolveReference(k, inp, caller, args, fr, answers).frame)
  {
  }

  lemma BindingGrows(inp: Inputs, answers: seq<Read>, fr: Frame, answer: Step<Outcome>)
    requires Grows(inp, answers, fr, answer.frame)
    ensures Grows(inp, answers, fr, BindDependency(answer).frame)
  {
  }

  lemma {:induction false} PrepareGrows(k: Kernel, inp: Inputs, caller: Path, e: Expr, depth: nat, fr: Frame, answers: seq<Read>)
    ensures Grows(inp, answers, fr, Prepare(k, inp, caller, e, depth, fr, answers).frame)
    decreases e
  {
    if depth <= MAX_EXPR_DEPTH {
      if e.Sym? {
        var seen := fr.See([NameSlot(e.symbol.Text())]);
        BareGrows(inp, caller, e.symbol, seen, answers);
        BindingGrows(inp, answers, seen, ResolveBare(inp, caller, e.symbol, seen, answers));
        if !IsBound(k, inp, fr.deps, e.symbol) {
          GrowsTransitively(inp, answers, fr, seen, Prepare(k, inp, caller, e, depth, fr, answers).frame);
        }
      } else if IsReference(e) {
        ReferenceGrows(k, inp, caller, e.args, fr, answers);
        BindingGrows(inp, answers, fr, ResolveReference(k, inp, caller, e.args, fr, answers));
      } else if IsWalked(e) {
        ItemsGrow(k, inp, caller, e, Walked(e), depth + 1, fr, answers);
      }
    }
  }

  lemma {:induction false} ItemsGrow(k: Kernel, inp: Inputs, caller: Path, context: Expr, items: seq<Expr>, depth: nat, fr: Frame, answers: seq<Read>)
    requires forall i :: 0 <= i < |items| ==> items[i] < context
    ensures Grows(inp, answers, fr, PrepareItems(k, inp, caller, context, items, depth, fr, answers).frame)
    decreases context, |items|
  {
    if items != [] {
      PrepareGrows(k, inp, caller, items[0], depth, fr, answers);
      var first := Prepare(k, inp, caller, items[0], depth, fr, answers);
      if first.Go? {
        ItemsGrow(k, inp, caller, context, items[1..], depth, first.frame, answers);
        GrowsTransitively(inp, answers, fr, first.frame,
                          PrepareItems(k, inp, caller, context, items[1..], depth, first.frame, answers).frame);
      }
    }
  }

  // ---- Keys determine the evaluation ----

  ghost predicate SameOn(a: Inputs, b: Inputs, keys: seq<Key>) {
    forall key :: key in keys ==> ContentOf(a, key) == ContentOf(b, key)
  }

  lemma SlotDecidesBinding(a: Inputs, b: Inputs, s: Symbol)
    requires ContentOf(a, NameSlot(s.Text())) == ContentOf(b, NameSlot(s.Text()))
    ensures s in a.Bindings() <==> s in b.Bindings()
    ensures s in a.Bindings() ==> a.Bindings()[s] == b.Bindings()[s]
  {
    assert s in a.Bindings() <==> s in ContentOf(a, NameSlot(s.Text())).bound;
    assert s in b.Bindings() <==> s in ContentOf(b, NameSlot(s.Text())).bound;
  }

  lemma ListingDecidesMember(a: Inputs, b: Inputs, p: Path)
    requires p != []
    requires ContentOf(a, Listing(Parent(p))) == ContentOf(b, Listing(Parent(p)))
    ensures p in a.cells <==> p in b.cells
  {
    assert p in a.cells <==> p in ContentOf(a, Listing(Parent(p))).cells;
    assert p in b.cells <==> p in ContentOf(b, Listing(Parent(p))).cells;
  }

  lemma {:induction false} LookupAgrees(a: Inputs, b: Inputs, dir: Path, name: string)
    requires SameOn(a, b, LookupFrom(a.cells.Keys, dir, name).keys)
    ensures LookupFrom(b.cells.Keys, dir, name) == LookupFrom(a.cells.Keys, dir, name)
    decreases |dir|
  {
    if LegalSegment(name) {
      assert LookupFrom(a.cells.Keys, dir, name).keys[0] == Listing(dir);
      assert Parent(dir + [name]) == dir;
      ListingDecidesMember(a, b, dir + [name]);
      if dir + [name] !in a.cells && dir != [] {
        LookupAgrees(a, b, Parent(dir), name);
      }
    }
  }

  lemma BareAgrees(a: Inputs, b: Inputs, caller: Path, s: Symbol, fr: Frame, answers: seq<Read>)
    requires SameOn(a, b, ResolveBare(a, caller, s, fr, answers).frame.keys)
    ensures ResolveBare(b, caller, s, fr, answers) == ResolveBare(a, caller, s, fr, answers)
  {
    var trace := LookupFrom(a.cells.Keys, Parent(caller), s.Text());
    assert ResolveBare(a, caller, s, fr, answers).frame.keys == fr.keys + trace.keys;
    LookupAgrees(a, b, Parent(caller), s.Text());
  }

  lemma TargetAgrees(a: Inputs, b: Inputs, target: Path, fr: Frame, answers: seq<Read>)
    requires SameOn(a, b, ResolveTarget(a, target, fr, answers).frame.keys)
    ensures ResolveTarget(b, target, fr, answers) == ResolveTarget(a, target, fr, answers)
  {
    var out := ResolveTarget(a, target, fr, answers).frame;
    assert out.keys[|fr.keys|] == Listing(Parent(target));
    if target != [] {
      ListingDecidesMember(a, b, target);
    } else {
      assert [] in a.cells <==> [] in ContentOf(a, Listing([])).cells;
      assert [] in b.cells <==> [] in ContentOf(b, Listing([])).cells;
    }
  }

  lemma {:induction false} PrepareAgrees(k: Kernel, a: Inputs, b: Inputs, caller: Path, e: Expr, depth: nat, fr: Frame, answers: seq<Read>)
    requires SameOn(a, b, Prepare(k, a, caller, e, depth, fr, answers).frame.keys)
    ensures Prepare(k, b, caller, e, depth, fr, answers) == Prepare(k, a, caller, e, depth, fr, answers)
    decreases e
  {
    if depth <= MAX_EXPR_DEPTH {
      if e.Sym? {
        var seen := fr.See([NameSlot(e.symbol.Text())]);
        BareGrows(a, caller, e.symbol, seen, answers);
        assert seen.keys[|fr.keys|] == NameSlot(e.symbol.Text());
        assert Prepare(k, a, caller, e, depth, fr, answers).frame.keys[|fr.keys|] == NameSlot(e.symbol.Text());
        SlotDecidesBinding(a, b, e.symbol);
        if !IsBound(k, a, fr.deps, e.symbol) {
          BareAgrees(a, b, caller, e.symbol, seen, answers);
        }
      } else if IsReference(e) {
        var text := ExplicitReference(e.args);
        if text.Ok? && k.resolve(Parent(caller), text.value).Ok? {
          TargetAgrees(a, b, k.resolve(Parent(caller), text.value).value, fr, answers);
        }
      } else if IsWalked(e) {
        ItemsAgree(k, a, b, caller, e, Walked(e), depth + 1, fr, answers);
      }
    }
  }

  lemma {:induction false} ItemsAgree(k: Kernel, a: Inputs, b: Inputs, caller: Path, context: Expr, items: seq<Expr>, depth: nat, fr: Frame, answers: seq<Read>)
    requires forall i :: 0 <= i < |items| ==> items[i] < context
    requires SameOn(a, b, PrepareItems(k, a, caller, context, items, depth, fr, answers).frame.keys)
    ensures PrepareItems(k, b, caller, context, items, depth, fr, answers) == PrepareItems(k, a, caller, context, items, depth, fr, answers)
    decreases context, |items|
  {
    if items != [] {
      var first := Prepare(k, a, caller, items[0], depth, fr, answers);
      if first.Go? {
        ItemsGrow(k, a, caller, context, items[1..], depth, first.frame, answers);
        ItemsAgree(k, a, b, caller, context, items[1..], depth, first.frame, answers);
      }
      PrepareAgrees(k, a, b, caller, items[0], depth, fr, answers);
    }
  }

  /** Every name left in a prepared form is a bound dependency or was observed. */
  ghost predicate Covered(names: set<Symbol>, fr: Frame) {
    forall s :: s in names ==> s in fr.deps || NameSlot(s.Text()) in fr.keys
  }

  lemma {:induction false} NamesCovered(k: Kernel, inp: Inputs, caller: Path, e: Expr, depth: nat, fr: Frame, answers: seq<Read>)
    ensures var r := Prepare(k, inp, caller, e, depth, fr, answers); r.Go? ==> Covered(Names(r.value), r.frame)
    decreases e
  {
    var r := Prepare(k, inp, caller, e, depth, fr, answers);
    if r.Go? {
      if e.Sym? {
        assert IsBound(k, inp, fr.deps, e.symbol) ==> r.frame.keys[|fr.keys|] == NameSlot(e.symbol.Text());
      } else if !IsReference(e) && IsWalked(e) {
        var parts := PrepareItems(k, inp, caller, e, Walked(e), depth + 1, fr, answers);
        ItemNamesCovered(k, inp, caller, e, Walked(e), depth + 1, fr, answers, r.value);
        assert Walked(r.value) == parts.value;
      }
    }
  }

  lemma {:induction false} ItemNamesCovered(k: Kernel, inp: Inputs, caller: Path, context: Expr, items: seq<Expr>, depth: nat, fr: Frame, answers: seq<Read>, built: Expr)
    requires forall i :: 0 <= i < |items| ==> items[i] < context
    requires var r := PrepareItems(k, inp, caller, context, items, depth, fr, answers);
             r.Go? && forall i :: 0 <= i < |r.value| ==> r.value[i] < built
    ensures var r := PrepareItems(k, inp, caller, context, items, depth, fr, answers); Covered(NamesOf(built, r.value), r.frame)
    decreases context, |items|
  {
    if items != [] {
      var r := PrepareItems(k, inp, caller, context, items, depth, fr, answers);
      var first := Prepare(k, inp, caller, items[0], depth, fr, answers);
      var rest := PrepareItems(k, inp, caller, context, items[1..], depth, first.frame, answers);
      assert r.value[0] == first.value && r.value[1..] == rest.value;
      NamesCovered(k, inp, caller, items[0], depth, fr, answers);
      ItemsGrow(k, inp, caller, context, items[1..], depth, first.frame, answers);
      ItemNamesCovered(k, inp, caller, context, items[1..], depth, first.frame, answers, built);
    }
  }

  lemma BindingAgrees(k: Kernel, a: Inputs, b: Inputs, fr: Frame, s: Symbol)
    requires SameOn(a, b, fr.keys)
    requires s in fr.deps || NameSlot(s.Text()) in fr.keys
    ensures IsBound(k, a, fr.deps, s) <==> IsBound(k, b, fr.deps, s)
    ensures IsBound(k, a, fr.deps, s) ==> Binding(k, a, fr.deps, s) == Binding(k, b, fr.deps, s)
  {
    if s !in fr.deps {
      SlotDecidesBinding(a, b, s);
    }
  }

  lemma EnvironmentAgrees(k: Kernel, a: Inputs, b: Inputs, fr: Frame, names: set<Symbol>)
    requires SameOn(a, b, fr.keys) && Covered(names, fr)
    ensures Environment(k, b, fr.deps, names) == Environment(k, a, fr.deps, names)
  {
    forall s | s in names
      ensures IsBound(k, a, fr.deps, s) <==> IsBound(k, b, fr.deps, s)
      ensures IsBound(k, a, fr.deps, s) ==> Binding(k, a, fr.deps, s) == Binding(k, b, fr.deps, s)
    {
      BindingAgrees(k, a, b, fr, s);
    }
  }

  lemma BodyKeys(k: Kernel, inp: Inputs, automatic: bool, directed: bool, cell: Path, answers: seq<Read>)
    ensures var out := Body(k, inp, automatic, directed, cell, answers).frame;
            Grows(inp, answers, Frame(map[], 0, 0, RuntimeContext(cell)), out)
    ensures forall key :: key in RuntimeContext(cell) ==> key in Body(k, inp, automatic, directed, cell, answers).frame.keys
  {
    var fr := Frame(map[], 0, 0, RuntimeContext(cell));
    if cell in inp.cells {
      var expanded := k.expand(inp.cells[cell], inp.AuthorityOf(cell).capabilities);
      if expanded.Ok? {
        PrepareGrows(k, inp, cell, expanded.value, 0, fr, answers);
      }
    }
  }

  /** The runtime context fixes the policies and the source of the cell. */
  lemma ContextDecides(a: Inputs, b: Inputs, cell: Path, keys: seq<Key>)
    requires SameOn(a, b, keys) && forall key :: key in RuntimeContext(cell) ==> key in keys
    ensures a.CalcPolicyOf(cell) == b.CalcPolicyOf(cell) && a.AuthorityOf(cell) == b.AuthorityOf(cell)
    ensures (cell in a.cells <==> cell in b.cells) && (cell in a.cells ==> a.cells[cell] == b.cells[cell])
  {
    var context := RuntimeContext(cell);
    assert context[0] == EffectivePolicy(cell) && context[1] == AuthorityPolicy(cell) && context[5] == Cell(cell);
    assert ContentOf(a, EffectivePolicy(cell)) == ContentOf(b, EffectivePolicy(cell));
    assert ContentOf(a, AuthorityPolicy(cell)) == ContentOf(b, AuthorityPolicy(cell));
    assert ContentOf(a, Cell(cell)) == ContentOf(b, Cell(cell));
  }

  /** A present source evaluates alike where its observations are alike. */
  lemma EvaluationAgrees(k: Kernel, a: Inputs, b: Inputs, cell: Path, source: Expr, fr: Frame, answers: seq<Read>)
    requires a.AuthorityOf(cell) == b.AuthorityOf(cell)
    requires var r := Evaluate(k, a, cell, source, fr, answers); SameOn(a, b, r.frame.keys)
    ensures Evaluate(k, b, cell, source, fr, answers) == Evaluate(k, a, cell, source, fr, answers)
  {
    hide Prepare, SameOn, Environment, Names, Covered;
    var expanded := k.expand(source, a.AuthorityOf(cell).capabilities);
    if expanded.Ok? {
      PrepareAgrees(k, a, b, cell, expanded.value, 0, fr, answers);
      NamesCovered(k, a, cell, expanded.value, 0, fr, answers);
      var r := Prepare(k, a, cell, expanded.value, 0, fr, answers);
      if r.Go? {
        EnvironmentAgrees(k, a, b, r.frame, Names(r.value));
      }
    }
  }

  /** Observation completeness: two states that look alike at every key an
      evaluation observed give it the same run - same result, same
      observations, same pending read. */
  lemma ObservationsDecide(k: Kernel, a: Inputs, b: Inputs, automatic: bool, directed: bool, cell: Path, answers: seq<Read>)
    requires SameOn(a, b, Body(k, a, automatic, directed, cell, answers).frame.keys)
    ensures Body(k, b, automatic, directed, cell, answers) == Body(k, a, automatic, directed, cell, answers)
  {
    BodyKeys(k, a, automatic, directed, cell, answers);
    hide SameOn, Evaluate, Grows;
    ContextDecides(a, b, cell, Body(k, a, automatic, directed, cell, answers).frame.keys);
    if BlockReason(a.CalcPolicyOf(cell).trigger, automatic, directed).None? && FirstMissing(a.AuthorityOf(cell)).None? && cell in a.cells {
      EvaluationAgrees(k, a, b, cell, a.cells[cell], Frame(map[], 0, 0, RuntimeContext(cell)), answers);
    }
  }

  // ---- Answers are consumed in order ----

  /** Cutting the answers at i either cuts nothing that was used, or leaves the
      run waiting for exactly the i-th read. */
  ghost predicate CutAt<T>(full: Step<T>, cut: Step<T>, answers: seq<Read>, i: nat) {
    && (full.frame.used <= i ==> cut == full)
    && (i < full.frame.used ==> i < |answers| && cut.Wait? && cut.target == answers[i].path && cut.frame.used == i)
  }

  lemma BareCut(inp: Inputs, caller: Path, symbol: Symbol, fr: Frame, answers: seq<Read>, i: nat)
    requires fr.used <= i <= |answers|
    ensures CutAt(ResolveBare(inp, caller, symbol, fr, answers), ResolveBare(inp, caller, symbol, fr, answers[..i]), answers, i)
  {
    hide LookupFrom;
  }

  lemma ReferenceCut(k: Kernel, inp: Inputs, caller: Path, args: seq<Expr>, fr: Frame, answers: seq<Read>, i: nat)
    requires fr.used <= i <= |answers|
    ensures CutAt(ResolveReference(k, inp, caller, args, fr, answers), ResolveReference(k, inp, caller, args, fr, answers[..i]), answers, i)
  {
  }

  lemma LeafCut(k: Kernel, inp: Inputs, caller: Path, e: Expr, depth: nat, fr: Frame, answers: seq<Read>, i: nat)
    requires depth <= MAX_EXPR_DEPTH && (e.Sym? || IsReference(e)) && fr.used <= i <= |answers|
    ensures CutAt(Prepare(k, inp, caller, e, depth, fr, answers), Prepare(k, inp, caller, e, depth, fr, answers[..i]), answers, i)
  {
    if e.Sym? {
      BareCut(inp, caller, e.symbol, fr.See([NameSlot(e.symbol.Text())]), answers, i);
    } else {
      ReferenceCut(k, inp, caller, e.args, fr, answers, i);
    }
    hide CutAt, ResolveBare, ResolveReference;
  }

  lemma {:induction false} PrepareCut(k: Kernel, inp: Inputs, caller: Path, e: Expr, depth: nat, fr: Frame, answers: seq<Read>, i: nat)
    requires fr.used <= i <= |answers|
    ensures CutAt(Prepare(k, inp, caller, e, depth, fr, answers), Prepare(k, inp, caller, e, depth, fr, answers[..i]), answers, i)
    decreases e
  {
    if depth > MAX_EXPR_DEPTH {
    } else if e.Sym? || IsReference(e) {
      LeafCut(k, inp, caller, e, depth, fr, answers, i);
    } else if IsWalked(e) {
      ItemsCut(k, inp, caller, e, Walked(e), depth + 1, fr, answers, i);
    }
  }

  lemma {:induction false} ItemsCut(k: Kernel, inp: Inputs, caller: Path, context: Expr, items: seq<Expr>, depth: nat, fr: Frame, answers: seq<Read>, i: nat)
    requires forall j :: 0 <= j < |items| ==> items[j] < context
    requires fr.used <= i <= |answers|
    ensures CutAt(PrepareItems(k, inp, caller, context, items, depth, fr, answers),
                  PrepareItems(k, inp, caller, context, items, depth, fr, answers[..i]), answers, i)
    decreases context, |items|
  {
    if items != [] {
      PrepareCut(k, inp, caller, items[0], depth, fr, answers, i);
      var first := Prepare(k, inp, caller, items[0], depth, fr, answers);
      if first.Go? {
        ItemsGrow(k, inp, caller, context, items[1..], depth, first.frame, answers);
        if first.frame.used <= i {
          ItemsCut(k, inp, caller, context, items[1..], depth, first.frame, answers, i);
        }
      }
    }
  }

  lemma BodyCut(k: Kernel, inp: Inputs, automatic: bool, directed: bool, cell: Path, answers: seq<Read>, i: nat)
    requires i <= |answers|
    ensures var full, cut := Body(k, inp, automatic, directed, cell, answers), Body(k, inp, automatic, directed, cell, answers[..i]);
            && (full.frame.used <= i ==> cut == full)
            && (i < full.frame.used ==> i < |answers| && cut.Need? && cut.target == answers[i].path && cut.frame.used == i)
  {
    if cell in inp.cells {
      var expanded := k.expand(inp.cells[cell], inp.AuthorityOf(cell).capabilities);
      if expanded.Ok? {
        PrepareCut(k, inp, cell, expanded.value, 0, Frame(map[], 0, 0, RuntimeContext(cell)), answers, i);
      }
    }
  }

  // ---- A failed answer ends the run ----

  ghost predicate StopsAt<T>(r: Step<T>, answers: seq<Read>, i: nat)
    requires i < |answers| && answers[i].outcome.Failed?
  {
    r.Abort? && r.failure == answers[i].outcome.failure && r.frame.used == i + 1
  }

  lemma BareReads(inp: Inputs, caller: Path, symbol: Symbol, fr: Frame, answers: seq<Read>, i: nat)
    requires i < |answers|
    requires fr.used <= i < ResolveBare(inp, caller, symbol, fr, answers).frame.used
    ensures var r := ResolveBare(inp, caller, symbol, fr, answers); r.Go? && r.value == answers[i].outcome && r.frame.used == i + 1
  {
    hide LookupFrom;
  }

  lemma ReferenceReads(k: Kernel, inp: Inputs, caller: Path, args: seq<Expr>, fr: Frame, answers: seq<Read>, i: nat)
    requires i < |answers|
    requires fr.used <= i < ResolveReference(k, inp, caller, args, fr, answers).frame.used
    ensures var r := ResolveReference(k, inp, caller, args, fr, answers); r.Go? && r.value == answers[i].outcome && r.frame.used == i + 1
  {
  }

  lemma LeafStops(k: Kernel, inp: Inputs, caller: Path, e: Expr, depth: nat, fr: Frame, answers: seq<Read>, i: nat)
    requires i < |answers| && answers[i].outcome.Failed?
    requires depth <= MAX_EXPR_DEPTH && (e.Sym? || IsReference(e))
    requires fr.used <= i < Prepare(k, inp, caller, e, depth, fr, answers).frame.used
    ensures StopsAt(Prepare(k, inp, caller, e, depth, fr, answers), answers, i)
  {
    hide ResolveBare, ResolveReference;
    if e.Sym? {
      BareReads(inp, caller, e.symbol, fr.See([NameSlot(e.symbol.Text())]), answers, i);
    } else {
      ReferenceReads(k, inp, caller, e.args, fr, answers, i);
    }
  }

  lemma {:induction false} PrepareStops(k: Kernel, inp: Inputs, caller: Path, e: Expr, depth: nat, fr: Frame, answers: seq<Read>, i: nat)
    requires i < |answers| && answers[i].outcome.Failed?
    requires fr.used <= i < Prepare(k, inp, caller, e, depth, fr, answers).frame.used
    ensures StopsAt(Prepare(k, inp, caller, e, depth, fr, answers), answers, i)
    decreases e
  {
    if depth > MAX_EXPR_DEPTH {
    } else if e.Sym? || IsReference(e) {
      LeafStops(k, inp, caller, e, depth, fr, answers, i);
    } else if IsWalked(e) {
      ItemsStop(k, inp, caller, e, Walked(e), depth + 1, fr, answers, i);
    }
  }

  lemma {:induction false} ItemsStop(k: Kernel, inp: Inputs, caller: Path, context: Expr, items: seq<Expr>, depth: nat, fr: Frame, answers: seq<Read>, i: nat)
    requires forall j :: 0 <= j < |items| ==> items[j] < context
    requires i < |answers| && answers[i].outcome.Failed?
    requires fr.used <= i < PrepareItems(k, inp, caller, context, items, depth, fr, answers).frame.used
    ensures StopsAt(PrepareItems(k, inp, caller, context, items, depth, fr, answers), answers, i)
    decreases context, |items|
  {
    if items != [] {
      var first := Prepare(k, inp, caller, items[0], depth, fr, answers);
      if i < first.frame.used {
        PrepareStops(k, inp, caller, items[0], depth, fr, answers, i);
      } else if first.Go? {
        ItemsStop(k, inp, caller, context, items[1..], depth, first.frame, answers, i);
      }
    }
  }

  /** A failure met on the way is the result, up to the cell's cycle policy. */
  lemma FailurePropagates(k: Kernel, inp: Inputs, automatic: bool, directed: bool, cell: Path, answers: seq<Read>, i: nat)
    requires i < |answers| && answers[i].outcome.Failed?
    requires i < Body(k, inp, automatic, directed, cell, answers).frame.used
    ensures var r := Body(k, inp, automatic, directed, cell, answers);
            r.Done? && r.outcome == ApplyCyclePolicy(answers[i].outcome, inp.CalcPolicyOf(cell).cycleMode, cell) && r.frame.used == i + 1
  {
    var expanded := k.expand(inp.cells[cell], inp.AuthorityOf(cell).capabilities);
    PrepareStops(k, inp, cell, expanded.value, 0, Frame(map[], 0, 0, RuntimeContext(cell)), answers, i);
  }

  // ---- A pending read is of a stored cell and was not answered ----

  ghost predicate WaitsFor<T>(r: Step<T>, inp: Inputs, answers: seq<Read>) {
    r.Wait? ==> r.target in inp.cells && (r.frame.used < |answers| ==> answers[r.frame.used].path != r.target)
  }

  lemma {:induction false} PrepareWaits(k: Kernel, inp: Inputs, caller: Path, e: Expr, depth: nat, fr: Frame, answers: seq<Read>)
    ensures WaitsFor(Prepare(k, inp, caller, e, depth, fr, answers), inp, answers)
    decreases e
  {
    if depth <= MAX_EXPR_DEPTH {
      if e.Sym? {
        LookupGrows(inp.cells.Keys, Parent(caller), e.symbol.Text());
      } else if !IsReference(e) && IsWalked(e) {
        ItemsWait(k, inp, caller, e, Walked(e), depth + 1, fr, answers);
      }
    }
  }

  lemma {:induction false} ItemsWait(k: Kernel, inp: Inputs, caller: Path, context: Expr, items: seq<Expr>, depth: nat, fr: Frame, answers: seq<Read>)
    requires forall j :: 0 <= j < |items| ==> items[j] < context
    ensures WaitsFor(PrepareItems(k, inp, caller, context, items, depth, fr, answers), inp, answers)
    decreases context, |items|
  {
    if items != [] {
      PrepareWaits(k, inp, caller, items[0], depth, fr, answers);
      var first := Prepare(k, inp, caller, items[0], depth, fr, answers);
      if first.Go? {
        ItemsWait(k, inp, caller, context, items[1..], depth, first.frame, answers);
      }
    }
  }

  lemma BodyWaits(k: Kernel, inp: Inputs, automatic: bool, directed: bool, cell: Path, answers: seq<Read>)
    ensures var r := Body(k, inp, automatic, directed, cell, answers);
            && r.frame.used <= |answers|
            && (r.Need? ==> r.target in inp.cells && (r.frame.used < |answers| ==> answers[r.frame.used].path != r.target))
  {
    BodyKeys(k, inp, automatic, directed, cell, answers);
    var r := Body(k, inp, automatic, directed, cell, answers);
    assert r.frame.used > 0 ==> ReadsStored(inp, answers, r.frame.used - 1);
    if cell in inp.cells {
      var expanded := k.expand(inp.cells[cell], inp.AuthorityOf(cell).capabilities);
      if expanded.Ok? {
        PrepareWaits(k, inp, cell, expanded.value, 0, Frame(map[], 0, 0, RuntimeContext(cell)), answers);
      }
    }
  }

  /** Answering the pending read lets the run consume exactly one more answer. */
  lemma AnswerAdvances(k: Kernel, inp: Inputs, automatic: bool, directed: bool, cell: Path, answers: seq<Read>, answer: Outcome)
    requires var r := Body(k, inp, automatic, directed, cell, answers); r.Need? && r.frame.used == |answers|
    ensures var r := Body(k, inp, automatic, directed, cell, answers);
            Body(k, inp, automatic, directed, cell, answers + [Read(r.target, answer)]).frame.used == |answers| + 1
  {
    var r := Body(k, inp, automatic, directed, cell, answers);
    var more := answers + [Read(r.target, answer)];
    assert more[..|answers|] == answers;
    BodyCut(k, inp, automatic, directed, cell, more, |answers|);
    BodyWaits(k, inp, automatic, directed, cell, more);
  }
}
