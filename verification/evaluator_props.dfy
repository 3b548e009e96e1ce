/** What the evaluator promises: `FlattenHeads` laws, held parts, the order
    of the dispatch stages, `Set` / `SetDelayed` as the tests of the kernel
    use them, and `And` against a reference definition.
 */
module EvaluationProps {
  import opened Wrappers
  import opened Values
  import opened Patterns
  import opened Matcher
  import opened MatcherProps
  import opened Symbols
  import opened Engines
  import opened Evaluation

  // ---------------------------------------------------------------------
  // FlattenHeads

  /** Flattening works element by element, so it keeps the left-to-right
      order of what it splices in. */
  lemma {:induction false} FlattenConcat(h: string, a: seq<Value>, b: seq<Value>)
    ensures FlattenAll(h, a + b) == FlattenAll(h, a) + FlattenAll(h, b)
  {
    if a == [] {
      assert a + b == b;
    } else {
      assert (a + b)[0] == a[0];
      assert (a + b)[1..] == a[1..] + b;
      FlattenConcat(h, a[1..], b);
    }
  }

  /** A list with no `h[...]` element is left as it is. */
  lemma {:induction false} FlattenIdentity(h: string, vs: seq<Value>)
    requires forall k :: 0 <= k < |vs| ==> !HasHead(vs[k], h)
    ensures FlattenAll(h, vs) == vs
  {
    if vs != [] {
      assert forall k :: 0 <= k < |vs[1..]| ==> vs[1..][k] == vs[k + 1];
      FlattenIdentity(h, vs[1..]);
      assert vs == [vs[0]] + vs[1..];
    }
  }

  /** Flattening twice is flattening once. */
  lemma FlattenIdempotent(h: string, vs: seq<Value>)
    ensures FlattenAll(h, FlattenAll(h, vs)) == FlattenAll(h, vs)
  {
    FlattenIdentity(h, FlattenAll(h, vs));
  }

  /** A single `h[...]` flattens to its parts. */
  lemma FlattenSingle(h: string, inner: seq<Value>)
    requires forall k :: 0 <= k < |inner| ==> !HasHead(inner[k], h)
    ensures FlattenAll(h, [Expr(Sym(h), inner)]) == inner
  {
    var x := Expr(Sym(h), inner);
    assert [x][1..] == [];
    FlattenIdentity(h, inner);
  }

  /** A nested `h[...]` is spliced in whole, at its place. */
  lemma FlattenSplices(h: string, before: seq<Value>, inner: seq<Value>, after: seq<Value>)
    requires forall k :: 0 <= k < |before| ==> !HasHead(before[k], h)
    requires forall k :: 0 <= k < |inner| ==> !HasHead(inner[k], h)
    requires forall k :: 0 <= k < |after| ==> !HasHead(after[k], h)
    ensures FlattenAll(h, before + [Expr(Sym(h), inner)] + after) == before + inner + after
  {
    var x := Expr(Sym(h), inner);
    calc {
      FlattenAll(h, before + [x] + after);
    == { FlattenConcat(h, before + [x], after); }
      FlattenAll(h, before + [x]) + FlattenAll(h, after);
    == { FlattenConcat(h, before, [x]); }
      FlattenAll(h, before) + FlattenAll(h, [x]) + FlattenAll(h, after);
    == { FlattenIdentity(h, before); FlattenSingle(h, inner); FlattenIdentity(h, after); }
      before + inner + after;
    }
  }

  // ---------------------------------------------------------------------
  // Hold attributes

  /** Parts that are all held come back as given, and nothing is evaluated
      (the engine is unchanged). */
  lemma {:induction false} HeldPartsAreKept(build: Build, e: Engine, attrs: bv32, parts: seq<Value>, i: nat, fuel: nat)
    requires WellKeyed(e) && i <= |parts|
    requires forall k :: i <= k < |parts| ==> !EvaluatesPart(attrs, k)
    ensures EvaluateParts(build, e, attrs, parts, i, fuel) == Ok(PartsOut(e, parts[i..]))
    decreases |parts| - i
  {
    if i < |parts| {
      assert !EvaluatesPart(attrs, i);
      HeldPartsAreKept(build, e, attrs, parts, i + 1, fuel);
      assert EvaluateParts(build, e, attrs, parts, i, fuel) == Ok(PartsOut(e, [parts[i]] + parts[i + 1..]));
      assert parts[i..] == [parts[i]] + parts[i + 1..];
    }
  }

  /** HoldAll and HoldAllComplete hold every part; HoldFirst holds the
      first and HoldRest the others, and without any hold attribute every
      part is evaluated. */
  lemma HoldPolicy(attrs: bv32, k: nat)
    ensures Has(attrs, HoldAll) || Has(attrs, HoldAllComplete) ==> !EvaluatesPart(attrs, k)
    ensures Has(attrs, HoldFirst) && k == 0 ==> !EvaluatesPart(attrs, k)
    ensures Has(attrs, HoldRest) && k > 0 ==> !EvaluatesPart(attrs, k)
    ensures (!Has(attrs, HoldAll) && !Has(attrs, HoldAllComplete) && !Has(attrs, HoldFirst) &&
      !Has(attrs, HoldRest)) ==> EvaluatesPart(attrs, k)
  {
  }

  /** Under HoldAll or HoldAllComplete the parts reach the dispatch as
      given. */
  lemma HoldAllKeepsParts(build: Build, e: Engine, attrs: bv32, parts: seq<Value>, fuel: nat)
    requires WellKeyed(e) && (Has(attrs, HoldAll) || Has(attrs, HoldAllComplete))
    ensures EvaluateParts(build, e, attrs, parts, 0, fuel) == Ok(PartsOut(e, parts))
  {
    HeldPartsAreKept(build, e, attrs, parts, 0, fuel);
    assert parts[0..] == parts;
  }

  // ---------------------------------------------------------------------
  // The order of the dispatch stages

  /** The up-values stage finds nothing exactly when no part's symbol has an
      up-value that matches (and no match throws). */
  lemma {:induction false} UpValuesNone(build: Build, e: Engine, evaluated: Value, parts: seq<Value>, i: nat)
    requires WellKeyed(e) && i <= |parts|
    ensures UpValues(build, e, evaluated, parts, i) == Ok(None) <==>
      forall k :: i <= k < |parts| ==> FindAndApplyRule(build, NoCondition, evaluated, UpRules(e, parts[k])) == Ok(None)
    decreases |parts| - i
  {
    if i < |parts| {
      UpValuesNone(build, e, evaluated, parts, i + 1);
    }
  }

  /** Up-values are tried part by part from the left: the first part whose
      up-values answer decides. */
  lemma {:induction false} UpValuesLeftmost(build: Build, e: Engine, evaluated: Value, parts: seq<Value>, i: nat, k: nat, v: Value)
    requires WellKeyed(e) && i <= k < |parts|
    requires forall j :: i <= j < k ==> FindAndApplyRule(build, NoCondition, evaluated, UpRules(e, parts[j])) == Ok(None)
    requires FindAndApplyRule(build, NoCondition, evaluated, UpRules(e, parts[k])) == Ok(Some(v))
    ensures UpValues(build, e, evaluated, parts, i) == Ok(Some(v))
    decreases k - i
  {
    if i < k {
      UpValuesLeftmost(build, e, evaluated, parts, i + 1, k, v);
    }
  }

  /** An up-value hit is the step's answer: no up-hook, down-value or
      down-hook is consulted and the engine is unchanged. */
  lemma UpValuePreemptsHooks(build: Build, e: Engine, attrs: bv32, head: Value, parts: seq<Value>, fuel: nat, v: Value)
    requires WellKeyed(e) && fuel > 0 && !Has(attrs, HoldAllComplete)
    requires var ev := Rebuild(attrs, head, parts); UpValues(build, e, ev, ev.parts, 0) == Ok(Some(v))
    ensures Dispatch(build, e, attrs, head, parts, fuel) == Ok(Step(e, v, true))
  {
  }

  /** HoldAllComplete skips the splicing, the up-values and the up-hooks,
      but the down stage still runs on the expression as given. */
  lemma HoldAllCompleteGoesDown(build: Build, e: Engine, attrs: bv32, head: Value, parts: seq<Value>, fuel: nat)
    requires WellKeyed(e) && fuel > 0 && Has(attrs, HoldAllComplete)
    ensures Dispatch(build, e, attrs, head, parts, fuel) == Down(build, e, Expr(head, parts), fuel)
  {
  }

  /** A matching down-value comes before the down-hook, whatever the hook. */
  lemma DownValueBeforeHook(build: Build, e: Engine, evaluated: Value, fuel: nat, v: Value)
    requires WellKeyed(e) && evaluated.Expr? && fuel > 0 && AtomHead(evaluated).Sym?
    requires FindAndApplyRule(build, NoCondition, evaluated, Lookup(e, AtomHead(evaluated).name).downValues) == Ok(Some(v))
    ensures Down(build, e, evaluated, fuel) == Ok(Step(e, v, true))
  {
  }

  /** When no symbol of the parts has up-values or an up-hook and the
      head's symbol has neither down-values nor a down-hook, the step
      returns the rebuilt expression with needMore false. */
  lemma NothingFires(build: Build, e: Engine, attrs: bv32, head: Value, parts: seq<Value>, fuel: nat)
    requires WellKeyed(e) && fuel > 0
    requires var ev := Rebuild(attrs, head, parts);
      forall k :: 0 <= k < |ev.parts| ==> UpRules(e, ev.parts[k]) == [] && UpHook(e, ev.parts[k]).None?
    requires AtomHead(head).Sym? ==>
      Lookup(e, AtomHead(head).name).downValues == [] && Lookup(e, AtomHead(head).name).downCode.None?
    ensures Dispatch(build, e, attrs, head, parts, fuel) == Ok(Step(e, Rebuild(attrs, head, parts), false))
  {
    var ev := Rebuild(attrs, head, parts);
    UpValuesNone(build, e, ev, ev.parts, 0);
    NoUpHooks(build, e, ev, ev.parts, 0, fuel);
  }

  lemma {:induction false} NoUpHooks(build: Build, e: Engine, evaluated: Value, parts: seq<Value>, i: nat, fuel: nat)
    requires WellKeyed(e) && evaluated.Expr? && i <= |parts| && fuel > 0
    requires forall k :: i <= k < |parts| ==> UpHook(e, parts[k]).None?
    ensures UpHooks(build, e, evaluated, parts, i, fuel) == Ok(HookOut(e, None))
    decreases |parts| - i
  {
    if i < |parts| {
      NoUpHooks(build, e, evaluated, parts, i + 1, fuel);
    }
  }

  // ---------------------------------------------------------------------
  // Symbols

  /** Evaluating a symbol with no own-values and no own hook gives the
      symbol itself, after one step, whatever the fuel beyond that. */
  lemma InertSymbol(build: Build, e: Engine, n: string, fuel: nat)
    requires WellKeyed(e) && fuel > 0
    requires Lookup(e, n).ownValues == [] && Lookup(e, n).ownCode.None?
    ensures Evaluate(build, e, Sym(n), fuel) == Ok(Evaluated(e, Sym(n)))
  {
  }

  // ---------------------------------------------------------------------
  // Set and SetDelayed

  /** After `x = rhs` on an unprotected `x`, the symbol `x` evaluates in one
      step to `rhs` itself. */
  lemma SetThenEvaluateSymbol(e: Engine, x: string, rhs: Value, delayed: bool)
    requires WellKeyed(e) && !Has(Lookup(e, x).attributes, Protected)
    ensures var r := SetImpl(e, Expr(Sym(SetName), [Sym(x), rhs]), delayed);
      r.Ok? && Lookup(r.value.engine, x).ownValues == [Rule(Literal(Sym(x)), rhs)] + Lookup(e, x).ownValues &&
      EvaluateSymbol(Corrected, r.value.engine, Sym(x)) == Ok(Step(r.value.engine, rhs, true))
  {
    var r := SetImpl(e, Expr(Sym(SetName), [Sym(x), rhs]), delayed);
    var e1 := r.value.engine;
    assert Compile(Sym(x)) == Literal(Sym(x));
    var rules := Lookup(e1, x).ownValues;
    assert rules[0] == Rule(Literal(Sym(x)), rhs);
    LiteralMatchesIffEqual(Corrected, NoCondition, Sym(x), Sym(x), EmptyContext);
    var s := Match(Corrected, NoCondition, rules[0].lhs, Sym(x), EmptyContext);
    assert s.items[0].context == EmptyContext;
    CorrectedSubstituteUnbound(rhs, map[]);
  }

  /** As written, the same assignment with an expression on the right
      gives back only the expression's parts: after `x = f[1]`, `x`
      evaluates to `1`. */
  lemma SetThenEvaluateSymbolAsWritten(e: Engine, x: string)
    requires WellKeyed(e) && !Has(Lookup(e, x).attributes, Protected)
    ensures var one := Num(Numbers.Ex(Numbers.Int(1)));
      var rhs := Expr(Sym("Global`f"), [one]);
      var r := SetImpl(e, Expr(Sym(SetName), [Sym(x), rhs]), false);
      r.Ok? && EvaluateSymbol(AsWritten, r.value.engine, Sym(x)) == Ok(Step(r.value.engine, one, true))
  {
    var one := Num(Numbers.Ex(Numbers.Int(1)));
    var rhs := Expr(Sym("Global`f"), [one]);
    var r := SetImpl(e, Expr(Sym(SetName), [Sym(x), rhs]), false);
    var e1 := r.value.engine;
    assert Compile(Sym(x)) == Literal(Sym(x));
    var rules := Lookup(e1, x).ownValues;
    assert rules[0] == Rule(Literal(Sym(x)), rhs);
    LiteralMatchesIffEqual(AsWritten, NoCondition, Sym(x), Sym(x), EmptyContext);
    SymbolSubstituteCounterexample();
  }

  /** After `lhs = rhs` with an lhs free of pattern forms, whose leftmost
      atom is an unprotected symbol with no down-values yet, the down stage
      rewrites exactly that lhs to `rhs`. */
  lemma SetThenDown(e: Engine, lhs: Value, rhs: Value, delayed: bool, fuel: nat)
    requires WellKeyed(e) && lhs.Expr? && !HasPatternForm(lhs) && AtomHead(lhs).Sym? && fuel > 0
    requires !Has(Lookup(e, AtomHead(lhs).name).attributes, Protected)
    ensures var r := SetImpl(e, Expr(Sym(SetName), [lhs, rhs]), delayed);
      r.Ok? && Down(Corrected, r.value.engine, lhs, fuel) == Ok(Step(r.value.engine, rhs, true))
  {
    var n := AtomHead(lhs).name;
    var r := SetImpl(e, Expr(Sym(SetName), [lhs, rhs]), delayed);
    var e1 := r.value.engine;
    CompileLiteralIffNoPatternForm(lhs);
    var rules := Lookup(e1, n).downValues;
    assert rules[0] == Rule(Literal(lhs), rhs);
    LiteralMatchesItself(Corrected, NoCondition, lhs);
    CorrectedSubstituteUnbound(rhs, map[]);
  }

  /** The symbol record `SystemSymbols.Init` gives `Set`. */
  predicate InitialSet(e: Engine)
    requires WellKeyed(e)
  {
    var s := Lookup(e, SetName);
    s.attributes == HoldFirst | Protected | SequenceHold && s.downCode == Some(SetHook) &&
    s.ownValues == [] && s.ownCode.None? && s.downValues == []
  }

  /** The symbol record `SystemSymbols.Init` gives `SetDelayed`. */
  predicate InitialSetDelayed(e: Engine)
    requires WellKeyed(e)
  {
    var s := Lookup(e, SetDelayedName);
    s.attributes == HoldAll | Protected | SequenceHold && s.downCode == Some(SetDelayedHook) &&
    s.ownValues == [] && s.ownCode.None? && s.downValues == []
  }

  lemma NewEngineIsInitial(system: seq<string>)
    requires AllSegments(system)
    ensures InitialSet(NewEngine(system)) && InitialSetDelayed(NewEngine(system))
  {
  }

  /** The down stage of `Set[...]` / `SetDelayed[...]` runs the hook. */
  lemma DownRunsSetHook(build: Build, e: Engine, ev: Value, delayed: bool, fuel: nat)
    requires WellKeyed(e) && fuel > 0 && ev.Expr?
    requires ev.head == Sym(if delayed then SetDelayedName else SetName)
    requires var s := Lookup(e, ev.head.name);
      s.downValues == [] && s.downCode == Some(if delayed then SetDelayedHook else SetHook)
    requires SetImpl(e, ev, delayed).Ok?
    ensures var out := SetImpl(e, ev, delayed).value;
      Down(build, e, ev, fuel) == Ok(Step(out.engine, out.answer.value.0, true))
  {
    assert AtomHead(ev) == ev.head;
    assert FindAndApplyRule(build, NoCondition, ev, []) == Ok(None);
  }

  /** A symbol with no own-values and no own-code evaluates to itself, and
      its attributes are those recorded. */
  lemma SystemHead(build: Build, e: Engine, n: string, attrs: bv32, fuel: nat)
    requires WellKeyed(e) && fuel > 0
    requires Lookup(e, n).ownValues == [] && Lookup(e, n).ownCode.None? && Lookup(e, n).attributes == attrs
    ensures Evaluate(build, e, Sym(n), fuel) == Ok(Evaluated(e, Sym(n)))
    ensures HeadAttributes(e, Sym(n)) == attrs
  {
    InertSymbol(build, e, n, fuel);
  }

  /** An expression step is its head's value, then its parts, then dispatch. */
  lemma ExpressionStages(build: Build, e: Engine, head: Value, parts: seq<Value>, fuel: nat,
                         hv: Value, attrs: bv32, e2: Engine, vs: seq<Value>, st: Step)
    requires WellKeyed(e) && fuel > 0
    requires Evaluate(build, e, head, fuel - 1) == Ok(Evaluated(e, hv)) && HeadAttributes(e, hv) == attrs
    requires EvaluateParts(build, e, attrs, parts, 0, fuel - 1) == Ok(PartsOut(e2, vs))
    requires WellKeyed(e2) && Dispatch(build, e2, attrs, hv, vs, fuel) == Ok(st)
    ensures EvaluateExpression(build, e, Expr(head, parts), fuel) == Ok(st)
  {
  }

  /** Under `Set`'s attributes only the right-hand side is evaluated. */
  lemma SetPartsEvaluated(build: Build, e: Engine, x: string, rhs: Value, fuel: nat, e2: Engine, v: Value)
    requires WellKeyed(e) && fuel >= 1
    requires Evaluate(build, e, rhs, fuel - 1) == Ok(Evaluated(e2, v))
    ensures WellKeyed(e2) && Evolves(e, e2)
    ensures EvaluateParts(build, e, HoldFirst | Protected | SequenceHold, [Sym(x), rhs], 0, fuel - 1) ==
      Ok(PartsOut(e2, [Sym(x), v]))
  {
    var attrs := HoldFirst | Protected | SequenceHold;
    var parts := [Sym(x), rhs];
    assert !EvaluatesPart(attrs, 0) && EvaluatesPart(attrs, 1) by {
      FlagsAreDistinctBits();
    }
    assert EvaluateParts(build, e2, attrs, parts, 2, fuel - 1) == Ok(PartsOut(e2, []));
    assert parts[1] == rhs && [v] + [] == [v];
    assert EvaluateParts(build, e, attrs, parts, 1, fuel - 1) == Ok(PartsOut(e2, [v]));
    assert [Sym(x)] + [v] == [Sym(x), v];
  }

  /** `Set[x, v]` with nothing attached to `x` or `v` goes down to the `Set`
      hook, which stores `x -> v`. */
  lemma SetDispatch(build: Build, e: Engine, x: string, v: Value, fuel: nat)
    requires WellKeyed(e) && InitialSet(e) && fuel >= 1
    requires UpRules(e, Sym(x)) == [] && UpHook(e, Sym(x)).None?
    requires UpRules(e, v) == [] && UpHook(e, v).None?
    ensures var out := SetImpl(e, Expr(Sym(SetName), [Sym(x), v]), false);
      out.Ok? && out.value.answer == Some((v, false)) &&
      Dispatch(build, e, HoldFirst | Protected | SequenceHold, Sym(SetName), [Sym(x), v], fuel) ==
        Ok(Step(out.value.engine, v, true)) &&
      Lookup(out.value.engine, x) ==
        (if Has(Lookup(e, x).attributes, Protected) then Lookup(e, x)
         else Lookup(e, x).(ownValues := [Rule(Literal(Sym(x)), v)] + Lookup(e, x).ownValues))
  {
    var attrs := HoldFirst | Protected | SequenceHold;
    assert !Has(attrs, HoldAllComplete) && Has(attrs, SequenceHold) && !Has(attrs, Flat) by {
      FlagsAreDistinctBits();
    }
    var ev := Expr(Sym(SetName), [Sym(x), v]);
    assert Rebuild(attrs, Sym(SetName), [Sym(x), v]) == ev;
    UpValuesNone(build, e, ev, ev.parts, 0);
    NoUpHooks(build, e, ev, ev.parts, 0, fuel);
    assert Dispatch(build, e, attrs, Sym(SetName), [Sym(x), v], fuel) == Down(build, e, ev, fuel);
    DownRunsSetHook(build, e, ev, false, fuel);
  }

  /** `x = rhs` evaluates `rhs` first and stores its value (copy by value):
      the step answers that value, and `x` gets the rule `x -> value` in
      front of its own-values unless it is Protected. */
  lemma SetStoresValue(build: Build, e: Engine, x: string, rhs: Value, fuel: nat, e2: Engine, v: Value)
    requires WellKeyed(e) && InitialSet(e) && fuel >= 2
    requires Evaluate(build, e, rhs, fuel - 1) == Ok(Evaluated(e2, v))
    requires UpRules(e2, Sym(x)) == [] && UpHook(e2, Sym(x)).None?
    requires UpRules(e2, v) == [] && UpHook(e2, v).None?
    ensures WellKeyed(e2)
    ensures var r := EvaluateExpression(build, e, Expr(Sym(SetName), [Sym(x), rhs]), fuel);
      r.Ok? && r.value.value == v && r.value.needMore &&
      Lookup(r.value.engine, x) ==
        (if Has(Lookup(e2, x).attributes, Protected) then Lookup(e2, x)
         else Lookup(e2, x).(ownValues := [Rule(Literal(Sym(x)), v)] + Lookup(e2, x).ownValues))
  {
    SystemHead(build, e, SetName, HoldFirst | Protected | SequenceHold, fuel - 1);
    SetPartsEvaluated(build, e, x, rhs, fuel, e2, v);
    assert Lookup(e2, SetName) == Lookup(e, SetName);
    SetDispatch(build, e2, x, v, fuel);
    var out := SetImpl(e2, Expr(Sym(SetName), [Sym(x), v]), false);
    ExpressionStages(build, e, Sym(SetName), [Sym(x), rhs], fuel, Sym(SetName), HoldFirst | Protected | SequenceHold, e2, [Sym(x), v], Step(out.value.engine, v, true));
    assert EvaluateExpression(build, e, Expr(Sym(SetName), [Sym(x), rhs]), fuel) == Ok(Step(out.value.engine, v, true));
  }

  /** `x := rhs` stores `rhs` as given (nothing is evaluated) and answers
      `Null`. */
  lemma SetDelayedStoresExpression(build: Build, e: Engine, x: string, rhs: Value, fuel: nat)
    requires WellKeyed(e) && InitialSetDelayed(e) && fuel >= 2
    requires UpRules(e, Sym(x)) == [] && UpHook(e, Sym(x)).None?
    requires UpRules(e, rhs) == [] && UpHook(e, rhs).None?
    ensures var r := EvaluateExpression(build, e, Expr(Sym(SetDelayedName), [Sym(x), rhs]), fuel);
      r.Ok? && r.value.value == Sym(NullName) && r.value.needMore &&
      Lookup(r.value.engine, x) ==
        (if Has(Lookup(e, x).attributes, Protected) then Lookup(e, x)
         else Lookup(e, x).(ownValues := [Rule(Literal(Sym(x)), rhs)] + Lookup(e, x).ownValues))
  {
    SetDelayedDispatch(build, e, x, rhs, fuel);
    var out := SetImpl(e, Expr(Sym(SetDelayedName), [Sym(x), rhs]), true);
    SetDelayedStep(build, e, x, rhs, fuel, Step(out.value.engine, Sym(NullName), true));
  }

  /** `SetDelayed[x, rhs]` evaluates to whatever its dispatch on the
      unevaluated parts gives. */
  lemma SetDelayedStep(build: Build, e: Engine, x: string, rhs: Value, fuel: nat, st: Step)
    requires WellKeyed(e) && InitialSetDelayed(e) && fuel >= 2
    requires Dispatch(build, e, HoldAll | Protected | SequenceHold, Sym(SetDelayedName), [Sym(x), rhs], fuel) == Ok(st)
    ensures EvaluateExpression(build, e, Expr(Sym(SetDelayedName), [Sym(x), rhs]), fuel) == Ok(st)
  {
    SystemHead(build, e, SetDelayedName, HoldAll | Protected | SequenceHold, fuel - 1);
    SetDelayedPartsHeld(build, e, [Sym(x), rhs], fuel - 1);
    ExpressionStages(build, e, Sym(SetDelayedName), [Sym(x), rhs], fuel, Sym(SetDelayedName), HoldAll | Protected | SequenceHold, e, [Sym(x), rhs], st);
  }

  /** Under `SetDelayed`'s attributes no part is evaluated. */
  lemma SetDelayedPartsHeld(build: Build, e: Engine, parts: seq<Value>, fuel: nat)
    requires WellKeyed(e)
    ensures EvaluateParts(build, e, HoldAll | Protected | SequenceHold, parts, 0, fuel) == Ok(PartsOut(e, parts))
  {
    var attrs := HoldAll | Protected | SequenceHold;
    assert Has(attrs, HoldAll);
    HoldAllKeepsParts(build, e, attrs, parts, fuel);
  }

  /** `SetDelayed[x, rhs]` with nothing attached to `x` or `rhs` goes down to
      the `SetDelayed` hook, which stores `x -> rhs` and answers `Null`. */
  lemma SetDelayedDispatch(build: Build, e: Engine, x: string, rhs: Value, fuel: nat)
    requires WellKeyed(e) && InitialSetDelayed(e) && fuel >= 1
    requires UpRules(e, Sym(x)) == [] && UpHook(e, Sym(x)).None?
    requires UpRules(e, rhs) == [] && UpHook(e, rhs).None?
    ensures var out := SetImpl(e, Expr(Sym(SetDelayedName), [Sym(x), rhs]), true);
      out.Ok? && out.value.answer == Some((Sym(NullName), false)) &&
      Dispatch(build, e, HoldAll | Protected | SequenceHold, Sym(SetDelayedName), [Sym(x), rhs], fuel) ==
        Ok(Step(out.value.engine, Sym(NullName), true)) &&
      Lookup(out.value.engine, x) ==
        (if Has(Lookup(e, x).attributes, Protected) then Lookup(e, x)
         else Lookup(e, x).(ownValues := [Rule(Literal(Sym(x)), rhs)] + Lookup(e, x).ownValues))
  {
    var attrs := HoldAll | Protected | SequenceHold;
    assert !Has(attrs, HoldAllComplete) && Has(attrs, SequenceHold) && !Has(attrs, Flat) by {
      FlagsAreDistinctBits();
    }
    var ev := Expr(Sym(SetDelayedName), [Sym(x), rhs]);
    assert Rebuild(attrs, Sym(SetDelayedName), [Sym(x), rhs]) == ev;
    UpValuesNone(build, e, ev, ev.parts, 0);
    NoUpHooks(build, e, ev, ev.parts, 0, fuel);
    assert Dispatch(build, e, attrs, Sym(SetDelayedName), [Sym(x), rhs], fuel) == Down(build, e, ev, fuel);
    DownRunsSetHook(build, e, ev, true, fuel);
  }

  // ---------------------------------------------------------------------
  // And

  /** The parts that are not `True`, in order. */
  function Kept(vs: seq<Value>): (r: seq<Value>)
    ensures |r| <= |vs|
  {
    if vs == [] then [] else (if vs[0] == Sym(TrueName) then [] else [vs[0]]) + Kept(vs[1..])
  }

  /** How `And` closes: `True` for nothing, the value for one, `And[...]`
      for more. */
  function Close(acc: seq<Value>): Value {
    if acc == [] then Sym(TrueName) else if |acc| == 1 then acc[0] else Expr(Sym(AndName), acc)
  }

  /** `And` of values that are already evaluated: `False` if any is
      `False`, otherwise the close of those that are not `True`. */
  function AndSpec(vs: seq<Value>): Value {
    if Sym(FalseName) in vs then Sym(FalseName) else Close(Kept(vs))
  }

  /** A value that evaluates to itself without changing the engine. */
  predicate Inert(build: Build, e: Engine, v: Value, fuel: nat)
    requires WellKeyed(e)
  {
    Evaluate(build, e, v, fuel) == Ok(Evaluated(e, v))
  }

  /** On parts that are already values, the `And` hook computes `AndSpec`,
      leaves the engine alone and reports needMore false. */
  lemma AndOfInertParts(build: Build, e: Engine, parts: seq<Value>, fuel: nat)
    requires WellKeyed(e)
    requires forall k :: 0 <= k < |parts| ==> Inert(build, e, parts[k], fuel)
    ensures AndLoop(build, e, parts, 0, [], fuel) == Ok(HookOut(e, Some((AndSpec(parts), false))))
  {
    AndLoopOfInert(build, e, parts, 0, [], fuel);
    assert parts[0..] == parts;
    assert [] + Kept(parts) == Kept(parts);
  }

  lemma {:induction false} AndLoopOfInert(build: Build, e: Engine, parts: seq<Value>, i: nat, acc: seq<Value>, fuel: nat)
    requires WellKeyed(e) && i <= |parts|
    requires forall k :: i <= k < |parts| ==> Inert(build, e, parts[k], fuel)
    ensures AndLoop(build, e, parts, i, acc, fuel) == Ok(HookOut(e, Some((
      if Sym(FalseName) in parts[i..] then Sym(FalseName) else Close(acc + Kept(parts[i..])), false))))
    decreases |parts| - i
  {
    if i == |parts| {
      assert parts[i..] == [];
      assert acc + [] == acc;
    } else {
      var v := parts[i];
      assert parts[i..] == [v] + parts[i + 1..];
      if v != Sym(FalseName) {
        var acc1 := if v == Sym(TrueName) then acc else acc + [v];
        AndLoopOfInert(build, e, parts, i + 1, acc1, fuel);
        AndLoopInertStep(build, e, parts, i, acc, fuel);
        KeptStep(parts, i, acc);
      }
    }
  }

  /** One step of the `And` loop over an inert part that is not `False`. */
  lemma AndLoopInertStep(build: Build, e: Engine, parts: seq<Value>, i: nat, acc: seq<Value>, fuel: nat)
    requires WellKeyed(e) && i < |parts| && Inert(build, e, parts[i], fuel) && parts[i] != Sym(FalseName)
    ensures AndLoop(build, e, parts, i, acc, fuel) ==
      AndLoop(build, e, parts, i + 1, if parts[i] == Sym(TrueName) then acc else acc + [parts[i]], fuel)
  {
  }

  /** Keeping one more part: the accumulated parts after step `i` and the
      kept parts from `i + 1` on are the accumulated and kept parts from `i`. */
  lemma KeptStep(parts: seq<Value>, i: nat, acc: seq<Value>)
    requires i < |parts|
    ensures var acc1 := if parts[i] == Sym(TrueName) then acc else acc + [parts[i]];
      acc1 + Kept(parts[i + 1..]) == acc + Kept(parts[i..]) &&
      (Sym(FalseName) in parts[i..] <==> parts[i] == Sym(FalseName) || Sym(FalseName) in parts[i + 1..])
  {
    var v := parts[i];
    assert parts[i..] == [v] + parts[i + 1..];
    assert parts[i..][1..] == parts[i + 1..];
    assert Kept(parts[i..]) == (if v == Sym(TrueName) then [] else [v]) + Kept(parts[i + 1..]);
  }

  /** `And` stops at the first part that evaluates to `False`: it answers
      `False` with the engine as that part left it, and the parts after it
      are never evaluated (any others give the same outcome). */
  lemma AndShortCircuits(build: Build, e: Engine, parts: seq<Value>, more: seq<Value>, i: nat, acc: seq<Value>, fuel: nat, e1: Engine)
    requires WellKeyed(e) && i < |parts|
    requires Evaluate(build, e, parts[i], fuel) == Ok(Evaluated(e1, Sym(FalseName)))
    ensures AndLoop(build, e, parts, i, acc, fuel) == Ok(HookOut(e1, Some((Sym(FalseName), false))))
    ensures AndLoop(build, e, parts[..i + 1] + more, i, acc, fuel) == AndLoop(build, e, parts, i, acc, fuel)
  {
    assert (parts[..i + 1] + more)[i] == parts[i];
  }
}
