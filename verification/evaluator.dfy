/** The evaluator: the rewrite loop of `Evaluator.Evaluate`, one rewrite
    step of an expression (`EvaluateExpression`) and of a symbol
    (`EvaluateSymbol`), `FlattenHeads`, and the hooks the kernel installs,
    including `Set` / `SetDelayed` and `And`, which need the engine.

    The loop in the source has no bound (its `IterationLimit` test does
    nothing), so evaluation here takes a fuel budget: every pass of a loop
    and every nested evaluation costs one unit, and running out is the
    `OutOfFuel` fault.
 */
module Evaluation {
  import opened Wrappers
  import opened Numbers
  import opened Values
  import opened Patterns
  import opened Matcher
  import opened Symbols
  import opened Engines
  import opened Builtins

  const TrueName: string := SystemContext + "True"
  const FalseName: string := SystemContext + "False"
  const AndName: string := SystemContext + "And"
  const NullName: string := SystemContext + "Null"

  /** The condition test the evaluator gives the matcher.  Compiled
      patterns never hold a condition, so it is never consulted. */
  const NoCondition: Value -> bool := v => false

  /** The outcome of a full evaluation. */
  datatype Evaluated = Evaluated(engine: Engine, value: Value)

  /** The outcome of one rewrite step: the engine afterwards, the new value
      and whether the loop must go on. */
  datatype Step = Step(engine: Engine, value: Value, needMore: bool)

  /** Evaluated parts and the engine after them. */
  datatype PartsOut = PartsOut(engine: Engine, values: seq<Value>)

  /** What a hook call returns: the engine afterwards and its answer,
      `None` for `null`. */
  datatype HookOut = HookOut(engine: Engine, answer: Option<(Value, bool)>)

  // ---------------------------------------------------------------------
  // What evaluation may change

  /** From `e` to `e1` only own-values and down-values changed, never those
      of a Protected symbol, and the contexts, attributes, up-values and
      hooks are as they were. */
  ghost predicate Evolves(e: Engine, e1: Engine)
    requires WellKeyed(e) && WellKeyed(e1)
  {
    e1.context == e.context && e1.contextPath == e.contextPath &&
    forall n :: (var s, s1 := Lookup(e, n), Lookup(e1, n);
      s1.attributes == s.attributes && s1.upValues == s.upValues &&
      s1.ownCode == s.ownCode && s1.upCode == s.upCode && s1.downCode == s.downCode &&
      (Has(s.attributes, Protected) ==> s1 == s))
  }

  lemma EvolvesTransitive(e: Engine, e1: Engine, e2: Engine)
    requires WellKeyed(e) && WellKeyed(e1) && WellKeyed(e2)
    requires Evolves(e, e1) && Evolves(e1, e2)
    ensures Evolves(e, e2)
  {
  }

  // ---------------------------------------------------------------------
  // FlattenHeads

  /** The value has an expression form with the symbol `h` as its head. */
  predicate HasHead(v: Value, h: string) {
    v.Expr? && v.head == Sym(h)
  }

  /** FlattenHeads(h) on one value: an `h[...]` expression is replaced by
      its flattened parts, anything else is kept. */
  function FlattenOne(h: string, v: Value): (r: seq<Value>)
    ensures forall k :: 0 <= k < |r| ==> !HasHead(r[k], h)
    decreases v, 1
  {
    if HasHead(v, h) then FlattenAll(h, v.parts) else [v]
  }

  /** `parts.SelectMany(FlattenHeads(h))`. */
  function FlattenAll(h: string, vs: seq<Value>): (r: seq<Value>)
    ensures forall k :: 0 <= k < |r| ==> !HasHead(r[k], h)
    decreases vs, 0
  {
    if vs == [] then []
    else
      var a := FlattenOne(h, vs[0]);
      var b := FlattenAll(h, vs[1..]);
      assert forall k :: 0 <= k < |a + b| ==> (a + b)[k] == if k < |a| then a[k] else b[k - |a|];
      a + b
  }

  // ---------------------------------------------------------------------
  // Hold attributes and the rebuilt expression

  /** Part 0 is evaluated unless HoldAll, HoldAllComplete or HoldFirst is
      set; the other parts unless HoldAll, HoldAllComplete or HoldRest is. */
  predicate EvaluatesPart(attrs: bv32, i: nat) {
    !Has(attrs, HoldAll) && !Has(attrs, HoldAllComplete) &&
    (if i == 0 then !Has(attrs, HoldFirst) else !Has(attrs, HoldRest))
  }

  /** The attributes of the evaluated head: those of its symbol, or none. */
  function HeadAttributes(e: Engine, head: Value): bv32
    requires WellKeyed(e)
  {
    if head.Sym? then Lookup(e, head.name).attributes else 0
  }

  /** The expression the dispatch works on: unless HoldAllComplete, the
      parts with `Sequence[...]` spliced in (unless SequenceHold) and then,
      for a Flat head, its own nested applications spliced in. */
  function Rebuild(attrs: bv32, head: Value, parts: seq<Value>): (r: Value)
    ensures r.Expr? && r.head == head
    ensures Has(attrs, HoldAllComplete) ==> r.parts == parts
    ensures !Has(attrs, HoldAllComplete) && !Has(attrs, SequenceHold) && !Has(attrs, Flat) ==>
      forall k :: 0 <= k < |r.parts| ==> !HasHead(r.parts[k], SequenceName)
    ensures !Has(attrs, HoldAllComplete) && head.Sym? && Has(attrs, Flat) ==>
      forall k :: 0 <= k < |r.parts| ==> !HasHead(r.parts[k], head.name)
  {
    if Has(attrs, HoldAllComplete) then Expr(head, parts)
    else
      var p1 := if !Has(attrs, SequenceHold) then FlattenAll(SequenceName, parts) else parts;
      var p2 := if head.Sym? && Has(attrs, Flat) then FlattenAll(head.name, p1) else p1;
      Expr(head, p2)
  }

  // ---------------------------------------------------------------------
  // Set, SetDelayed and DoSet

  /** Which rule list `DoSet` prepends to. */
  datatype Target = OwnValues | DownValues

  /** DoSet: a Protected symbol is left alone; otherwise the rule goes in
      front of the chosen list. */
  function DoSet(e: Engine, name: string, target: Target, rule: Rule): (r: Engine)
    requires WellKeyed(e)
    ensures WellKeyed(r) && Evolves(e, r)
    ensures Has(Lookup(e, name).attributes, Protected) ==> r == e
    ensures !Has(Lookup(e, name).attributes, Protected) ==>
      var s, s1 := Lookup(e, name), Lookup(r, name);
      (target == OwnValues ==> s1 == s.(ownValues := [rule] + s.ownValues)) &&
      (target == DownValues ==> s1 == s.(downValues := [rule] + s.downValues))
    ensures forall n :: n != name ==> Lookup(r, n) == Lookup(e, n)
  {
    var s := Lookup(e, name);
    if Has(s.attributes, Protected) then e
    else if target == OwnValues then Store(e, s.(ownValues := [rule] + s.ownValues))
    else Store(e, s.(downValues := [rule] + s.downValues))
  }

  /** SetImplementations.Set (`delayed` false) and SetDelayed (`delayed`
      true): an expression left-hand side adds a down-value to the symbol
      its leftmost atom names, a symbol adds an own-value, anything else
      changes nothing.  Set answers the right-hand side, SetDelayed `Null`,
      both with needMore false.  Fewer than two parts fail on the index; an
      expression whose leftmost atom is not a symbol has no symbol head and
      fails on the null. */
  function SetImpl(e: Engine, expr: Value, delayed: bool): (r: Result<HookOut>)
    requires WellKeyed(e) && expr.Expr?
    ensures r.Ok? ==> WellKeyed(r.value.engine) && Evolves(e, r.value.engine)
    ensures r.Err? <==> |expr.parts| < 2 || (expr.parts[0].Expr? && !AtomHead(expr.parts[0]).Sym?)
    ensures r.Ok? ==> r.value.answer == Some((if delayed then Sym(NullName) else expr.parts[1], false))
    ensures r.Ok? && !expr.parts[0].Expr? && !expr.parts[0].Sym? ==> r.value.engine == e
  {
    if |expr.parts| < 2 then Err(IndexOutOfRange)
    else
      var lhs, rhs := expr.parts[0], expr.parts[1];
      var answer := Some((if delayed then Sym(NullName) else rhs, false));
      if lhs.Expr? then
        var a := AtomHead(lhs);
        if !a.Sym? then Err(NullReference)
        else Ok(HookOut(DoSet(e, a.name, DownValues, Rule(Compile(lhs), rhs)), answer))
      else if lhs.Sym? then Ok(HookOut(DoSet(e, lhs.name, OwnValues, Rule(Compile(lhs), rhs)), answer))
      else Ok(HookOut(e, answer))
  }

  // ---------------------------------------------------------------------
  // Evaluation

  /** Evaluator.Evaluate: symbols and expressions are stepped until a step
      reports that nothing more is needed; any other atom is its own value
      at once. */
  function Evaluate(build: Build, e: Engine, v: Value, fuel: nat): (r: Result<Evaluated>)
    requires WellKeyed(e)
    ensures r.Ok? ==> WellKeyed(r.value.engine) && Evolves(e, r.value.engine)
    ensures !v.Expr? && !v.Sym? ==> r == Ok(Evaluated(e, v))
    decreases fuel, 4
  {
    if !v.Expr? && !v.Sym? then Ok(Evaluated(e, v))
    else if fuel == 0 then Err(OutOfFuel)
    else
      var st :- if v.Expr? then EvaluateExpression(build, e, v, fuel) else EvaluateSymbol(build, e, v);
      if st.needMore then
        var r :- Evaluate(build, st.engine, st.value, fuel - 1);
        EvolvesTransitive(e, st.engine, r.engine);
        Ok(r)
      else Ok(Evaluated(st.engine, st.value))
  }

  /** Evaluator.EvaluateSymbol: the first own-value that matches, else the
      own hook's answer, else the symbol itself with needMore false.  It
      never changes the engine. */
  function EvaluateSymbol(build: Build, e: Engine, v: Value): (r: Result<Step>)
    requires WellKeyed(e) && v.Sym?
    ensures r.Ok? ==> r.value.engine == e
    ensures r.Ok? && !r.value.needMore ==> r.value.value == v
  {
    var s := Lookup(e, v.name);
    var reg :- FindAndApplyRule(build, NoCondition, v, s.ownValues);
    if reg.Some? then Ok(Step(e, reg.value, true))
    else if s.ownCode.Some? && v in s.ownCode.value.answers then Ok(Step(e, s.ownCode.value.answers[v].0, true))
    else Ok(Step(e, v, false))
  }

  /** Evaluator.EvaluateExpression: evaluate the head, then the parts its
      attributes do not hold, then dispatch. */
  function EvaluateExpression(build: Build, e: Engine, expr: Value, fuel: nat): (r: Result<Step>)
    requires WellKeyed(e) && expr.Expr? && fuel > 0
    ensures r.Ok? ==> WellKeyed(r.value.engine) && Evolves(e, r.value.engine)
    decreases fuel, 3
  {
    var h :- Evaluate(build, e, expr.head, fuel - 1);
    var attrs := HeadAttributes(h.engine, h.value);
    var ps :- EvaluateParts(build, h.engine, attrs, expr.parts, 0, fuel - 1);
    EvolvesTransitive(e, h.engine, ps.engine);
    var st :- Dispatch(build, ps.engine, attrs, h.value, ps.values, fuel);
    EvolvesTransitive(e, ps.engine, st.engine);
    Ok(st)
  }

  /** The parts from `i` on, each evaluated unless held, left to right. */
  function EvaluateParts(build: Build, e: Engine, attrs: bv32, parts: seq<Value>, i: nat, fuel: nat): (r: Result<PartsOut>)
    requires WellKeyed(e) && i <= |parts|
    ensures r.Ok? ==> WellKeyed(r.value.engine) && Evolves(e, r.value.engine)
    ensures r.Ok? ==> |r.value.values| == |parts| - i
    ensures r.Ok? ==> forall k :: i <= k < |parts| && !EvaluatesPart(attrs, k) ==> r.value.values[k - i] == parts[k]
    decreases fuel, 5, |parts| - i
  {
    if i == |parts| then Ok(PartsOut(e, []))
    else
      var first :- if EvaluatesPart(attrs, i) then Evaluate(build, e, parts[i], fuel) else Ok(Evaluated(e, parts[i]));
      var rest :- EvaluateParts(build, first.engine, attrs, parts, i + 1, fuel);
      EvolvesTransitive(e, first.engine, rest.engine);
      Ok(PartsOut(rest.engine, [first.value] + rest.values))
  }

  /** Evaluator.cs lines 57-118: unless HoldAllComplete, the up-values of the
      parts' symbols, then their up-hooks; then the down-values and down-hook
      of the head's leftmost atom. */
  function Dispatch(build: Build, e: Engine, attrs: bv32, head: Value, parts: seq<Value>, fuel: nat): (r: Result<Step>)
    requires WellKeyed(e) && fuel > 0
    ensures r.Ok? ==> WellKeyed(r.value.engine) && Evolves(e, r.value.engine)
    ensures r.Ok? && !r.value.needMore ==> r.value.value == Rebuild(attrs, head, parts)
    decreases fuel, 2
  {
    var evaluated := Rebuild(attrs, head, parts);
    if Has(attrs, HoldAllComplete) then Down(build, e, evaluated, fuel)
    else
      var up :- UpValues(build, e, evaluated, evaluated.parts, 0);
      if up.Some? then Ok(Step(e, up.value, true))
      else
        var hooked :- UpHooks(build, e, evaluated, evaluated.parts, 0, fuel);
        if hooked.answer.Some? then Ok(Step(hooked.engine, hooked.answer.value.0, true))
        else
          var st :- Down(build, hooked.engine, evaluated, fuel);
          EvolvesTransitive(e, hooked.engine, st.engine);
          Ok(st)
  }

  /** The up-value rules of the symbol a value's leftmost atom names. */
  function UpRules(e: Engine, v: Value): seq<Rule>
    requires WellKeyed(e)
  {
    var a := AtomHead(v);
    if a.Sym? then Lookup(e, a.name).upValues else []
  }

  /** The up-values stage: for each part from `i` on, the first rule of its
      symbol's up-values that matches the whole expression. */
  function UpValues(build: Build, e: Engine, evaluated: Value, parts: seq<Value>, i: nat): Result<Option<Value>>
    requires WellKeyed(e) && i <= |parts|
    decreases |parts| - i
  {
    if i == |parts| then Ok(None)
    else
      var hit :- FindAndApplyRule(build, NoCondition, evaluated, UpRules(e, parts[i]));
      if hit.Some? then Ok(hit) else UpValues(build, e, evaluated, parts, i + 1)
  }

  /** The up-hook of the symbol a value's leftmost atom names, if any. */
  function UpHook(e: Engine, v: Value): Option<Hook>
    requires WellKeyed(e)
  {
    var a := AtomHead(v);
    if a.Sym? then Lookup(e, a.name).upCode else None
  }

  /** The up-hooks stage: the first answer of the parts' up-hooks, from `i`
      on; each call sees the engine the previous calls left. */
  function UpHooks(build: Build, e: Engine, evaluated: Value, parts: seq<Value>, i: nat, fuel: nat): (r: Result<HookOut>)
    requires WellKeyed(e) && evaluated.Expr? && i <= |parts| && fuel > 0
    ensures r.Ok? ==> WellKeyed(r.value.engine) && Evolves(e, r.value.engine)
    decreases fuel, 1, |parts| - i
  {
    if i == |parts| then Ok(HookOut(e, None))
    else
      var hook := UpHook(e, parts[i]);
      if hook.None? then UpHooks(build, e, evaluated, parts, i + 1, fuel)
      else
        var out :- RunHook(build, e, hook.value, evaluated, fuel);
        if out.answer.Some? then Ok(out)
        else
          var rest :- UpHooks(build, out.engine, evaluated, parts, i + 1, fuel);
          EvolvesTransitive(e, out.engine, rest.engine);
          Ok(rest)
  }

  /** The down stage: no symbol at the head's leftmost atom means nothing
      applies; otherwise its first matching down-value, then its down-hook,
      then the expression itself with needMore false. */
  function Down(build: Build, e: Engine, evaluated: Value, fuel: nat): (r: Result<Step>)
    requires WellKeyed(e) && evaluated.Expr? && fuel > 0
    ensures r.Ok? ==> WellKeyed(r.value.engine) && Evolves(e, r.value.engine)
    ensures r.Ok? && !r.value.needMore ==> r.value.value == evaluated
    ensures !AtomHead(evaluated).Sym? ==> r == Ok(Step(e, evaluated, false))
    decreases fuel, 1
  {
    var a := AtomHead(evaluated);
    if !a.Sym? then Ok(Step(e, evaluated, false))
    else
      var s := Lookup(e, a.name);
      var down :- FindAndApplyRule(build, NoCondition, evaluated, s.downValues);
      if down.Some? then Ok(Step(e, down.value, true))
      else if s.downCode.None? then Ok(Step(e, evaluated, false))
      else
        var out :- RunHook(build, e, s.downCode.value, evaluated, fuel);
        if out.answer.Some? then Ok(Step(out.engine, out.answer.value.0, true))
        else Ok(Step(out.engine, evaluated, false))
  }

  /** Call a hook on an expression. */
  function RunHook(build: Build, e: Engine, hook: Hook, expr: Value, fuel: nat): (r: Result<HookOut>)
    requires WellKeyed(e) && expr.Expr? && fuel > 0
    ensures r.Ok? ==> WellKeyed(r.value.engine) && Evolves(e, r.value.engine)
    decreases fuel, 0
  {
    match hook
    case SetHook => SetImpl(e, expr, false)
    case SetDelayedHook => SetImpl(e, expr, true)
    case AndHook => AndLoop(build, e, expr.parts, 0, [], fuel - 1)
    case AppendHook => Ok(HookOut(e, Builtins.Append(expr)))
    case ApplyHook => Ok(HookOut(e, Apply(expr)))
    case PlusHook => var a :- Plus(expr); Ok(HookOut(e, a))
    case TimesHook => var a :- Times(build, expr); Ok(HookOut(e, a))
    case PlusSumHook => var a :- PlusSum(expr); Ok(HookOut(e, a))
    case Native(answers) => Ok(HookOut(e, if expr in answers then Some(answers[expr]) else None))
  }

  /** ElementaryImplementations.And from part `i` on, with the kept values
      `acc`: a part that evaluates to `False` ends it with `False`; `True`
      is dropped; at the end nothing kept is `True`, one kept value is
      itself and more are `And[...]` of them, always with needMore false. */
  function AndLoop(build: Build, e: Engine, parts: seq<Value>, i: nat, acc: seq<Value>, fuel: nat): (r: Result<HookOut>)
    requires WellKeyed(e) && i <= |parts|
    ensures r.Ok? ==> WellKeyed(r.value.engine) && Evolves(e, r.value.engine)
    ensures r.Ok? ==> r.value.answer.Some? && !r.value.answer.value.1
    decreases fuel, 5, |parts| - i
  {
    if i == |parts| then
      Ok(HookOut(e, Some((if acc == [] then Sym(TrueName) else if |acc| == 1 then acc[0] else Expr(Sym(AndName), acc), false))))
    else
      var ev :- Evaluate(build, e, parts[i], fuel);
      if ev.value == Sym(FalseName) then Ok(HookOut(ev.engine, Some((ev.value, false))))
      else
        var rest :- AndLoop(build, ev.engine, parts, i + 1, if ev.value == Sym(TrueName) then acc else acc + [ev.value], fuel);
        EvolvesTransitive(e, ev.engine, rest.engine);
        Ok(rest)
  }
}
