/** The backtracking matcher: `Match` and `MatchSequence` of every pattern
    class, `PatternMatching.SequenceMatch`, `IsMatch`, `FindAndApplyRule`,
    `ToSingle` and `SymbolSubstitute`.

    The source's matchers are lazy C# enumerations.  A `Stream` records what a
    consumer pulling on one sees: the items in order, then either the end or
    the exception thrown when the next item is requested.
 */
module Matcher {
  import opened Wrappers
  import opened Values
  import opened Patterns

  datatype Stream<T> = Stream(items: seq<T>, fault: Option<Fault>)

  function Done<T>(items: seq<T>): Stream<T> {
    Stream(items, None)
  }

  /** The items of `a`, then, only when `a` ends normally, those of `b`. */
  function Append<T>(a: Stream<T>, b: Stream<T>): Stream<T> {
    if a.fault.Some? then a else Stream(a.items + b.items, b.fault)
  }

  /** `Select` with a step that may throw: items up to the first throwing
      one, which ends the enumeration with its exception. */
  function MapItems<T, U>(xs: seq<T>, f: T -> Result<U>): (r: Stream<U>)
    ensures |r.items| <= |xs|
    ensures forall i :: 0 <= i < |r.items| ==> f(xs[i]) == Ok(r.items[i])
    ensures r.fault.None? <==> |r.items| == |xs|
    ensures r.fault.Some? ==> f(xs[|r.items|]) == Err(r.fault.value)
  {
    if xs == [] then Done([])
    else
      match f(xs[0])
      case Err(e) => Stream([], Some(e))
      case Ok(y) =>
        var rest := MapItems(xs[1..], f);
        Stream([y] + rest.items, rest.fault)
  }

  function StreamMap<T, U>(s: Stream<T>, f: T -> Result<U>): Stream<U> {
    var m := MapItems(s.items, f);
    if m.fault.Some? then m else Stream(m.items, s.fault)
  }

  /** `Where`: the items that pass, in order. */
  function FilterItems<T>(xs: seq<T>, keep: T -> bool): (r: seq<T>)
    ensures |r| <= |xs|
    ensures forall y :: y in r ==> y in xs && keep(y)
    ensures forall x :: x in xs && keep(x) ==> x in r
  {
    if xs == [] then []
    else (if keep(xs[0]) then [xs[0]] else []) + FilterItems(xs[1..], keep)
  }

  // ---------------------------------------------------------------------
  // MatchContext and MatchResult

  /** MatchContext: the captures, keyed by the full name of the symbol. */
  datatype MatchContext = MatchContext(captures: map<string, seq<Value>>)

  /** MatchContext.Create. */
  const EmptyContext: MatchContext := MatchContext(map[])

  /** MatchResult: the context after the match and the consumed group. */
  datatype MatchResult = MatchResult(context: MatchContext, consumed: seq<Value>)

  /** One way to match a prefix: the result and the values left over. */
  datatype Split = Split(result: MatchResult, rest: seq<Value>)

  /** MatchContext.WithMatch. */
  function WithMatch(ctx: MatchContext, consumed: seq<Value>): MatchResult {
    MatchResult(ctx, consumed)
  }

  /** MatchContext.WithCapture: `ImmutableDictionary.Add` throws when the
      name is already bound. */
  function WithCapture(ctx: MatchContext, name: string, vs: seq<Value>): (r: Result<MatchContext>)
    ensures r.Err? <==> name in ctx.captures
    ensures r.Err? ==> r.error == DuplicateCapture
    ensures r.Ok? ==> name in r.value.captures && r.value.captures[name] == vs
    ensures r.Ok? ==> forall k :: k != name ==>
      (k in r.value.captures <==> k in ctx.captures) &&
      (k in ctx.captures ==> r.value.captures[k] == ctx.captures[k])
  {
    if name in ctx.captures then Err(DuplicateCapture)
    else Ok(MatchContext(ctx.captures[name := vs]))
  }

  /** MatchResult.Concat: `b`'s context, the two consumed groups in order. */
  function Concat(a: MatchResult, b: MatchResult): MatchResult {
    MatchResult(b.context, a.consumed + b.consumed)
  }

  // ---------------------------------------------------------------------
  // ToSingle and SymbolSubstitute

  const SequenceName: string := SystemContext + "Sequence"

  /** PatternMatching.ToSingle: the element of a singleton, otherwise
      `Sequence[...]` of all of them. */
  function ToSingle(vs: seq<Value>): (r: Value)
    ensures |vs| == 1 ==> r == vs[0]
    ensures |vs| != 1 ==> r == Expr(Sym(SequenceName), vs)
  {
    if |vs| == 1 then vs[0] else Expr(Sym(SequenceName), vs)
  }

  function Flatten(vss: seq<seq<Value>>): seq<Value> {
    if vss == [] then [] else vss[0] + Flatten(vss[1..])
  }

  /** PatternMatching.SymbolSubstitute: a bound symbol becomes its capture,
      any other atom a singleton.  An expression is rebuilt from the
      substituted head and the spliced substituted parts; as written it is
      then returned as an `IEnumerable<Value>`, that is, as its parts. */
  function SymbolSubstitute(build: Build, v: Value, bound: map<string, seq<Value>>): seq<Value> {
    match v
    case Expr(h, ps) =>
      var rebuilt := Expr(
        ToSingle(SymbolSubstitute(build, h, bound)),
        Flatten(seq(|ps|, i requires 0 <= i < |ps| => SymbolSubstitute(build, ps[i], bound))));
      if build == AsWritten then rebuilt.parts else [rebuilt]
    case Sym(n) => if n in bound then bound[n] else [v]
    case _ => [v]
  }

  // ---------------------------------------------------------------------
  // The pattern classes

  /** The head test of BlankPattern and BlankSequencePattern. */
  predicate HeadOk(h: Option<Value>, v: Value) {
    h.None? || ValueEq(h.value, HeadOf(v))
  }

  /** ConditionPattern.ApplyCondition: the condition with the captures
      substituted, made single and passed to `test`, which stands for
      "evaluates to True". */
  predicate Passes(build: Build, test: Value -> bool, cond: Value, r: MatchResult) {
    test(ToSingle(SymbolSubstitute(build, cond, r.context.captures)))
  }

  /** NamedPattern's projection of one inner result. */
  function NameResult(name: string, r: MatchResult): Result<MatchResult> {
    var c :- WithCapture(r.context, name, r.consumed);
    Ok(WithMatch(c, r.consumed))
  }

  function NameSplit(name: string, s: Split): Result<Split> {
    var r :- NameResult(name, s.result);
    Ok(Split(r, s.rest))
  }

  /** `Match` of each pattern class against one value. */
  function Match(build: Build, test: Value -> bool, p: Pattern, v: Value, ctx: MatchContext): Stream<MatchResult>
    decreases PSize(p), 0, 0
  {
    match p
    case Blank(h) => Done(if HeadOk(h, v) then [WithMatch(ctx, [v])] else [])
    case BlankSeq(_, h) => Done(if HeadOk(h, v) then [WithMatch(ctx, [v])] else [])
    case Literal(l) => Done(if ValueEq(l, v) then [WithMatch(ctx, [v])] else [])
    case Named(n, q) => StreamMap(Match(build, test, q, v, ctx), r => NameResult(n, r))
    case ExprPat(hp, pps) =>
      if !v.Expr? then Done([])
      else
        var heads := Match(build, test, hp, v.head, ctx);
        ExprMatches(build, test, pps, v, heads.items, heads.fault)
    case Condition(q, c) =>
      var inner := Match(build, test, q, v, ctx);
      Stream(FilterItems(inner.items, r => Passes(build, test, c, r)), inner.fault)
  }

  /** ExprPattern: for each head match in turn, every way of matching the
      part patterns against all the parts. */
  function ExprMatches(build: Build, test: Value -> bool, pps: seq<Pattern>, v: Value,
                       heads: seq<MatchResult>, headFault: Option<Fault>): Stream<MatchResult>
    requires v.Expr?
    decreases PsSize(pps), 3, |heads|
  {
    if heads == [] then Stream([], headFault)
    else
      var h := heads[0];
      var parts := SequenceMatch(build, test, pps, v.parts, h.context);
      var here := StreamMap(parts, (pr: MatchResult) => Ok(WithMatch(pr.context, [Expr(ToSingle(h.consumed), pr.consumed)])));
      Append(here, ExprMatches(build, test, pps, v, heads[1..], headFault))
  }

  /** `MatchSequence` of each pattern class against a list of values. */
  function MatchSeq(build: Build, test: Value -> bool, p: Pattern, vals: seq<Value>, ctx: MatchContext): Stream<Split>
    decreases PSize(p), 1, 0
  {
    match p
    case BlankSeq(isNull, h) =>
      Done((if isNull then [Split(WithMatch(ctx, []), vals)] else []) + Prefixes(h, vals, ctx, 0))
    case Named(n, q) => StreamMap(MatchSeq(build, test, q, vals, ctx), s => NameSplit(n, s))
    case Condition(q, c) =>
      var inner := MatchSeq(build, test, q, vals, ctx);
      Stream(FilterItems(inner.items, (s: Split) => Passes(build, test, c, s.result)), inner.fault)
    case _ =>
      if vals == [] then Done([])
      else StreamMap(Match(build, test, p, vals[0], ctx), r => Ok(Split(r, vals[1..])))
  }

  /** The loop of BlankSequencePattern.MatchSequence from index i: each
      longer prefix while its last element passes the head test. */
  function Prefixes(h: Option<Value>, vals: seq<Value>, ctx: MatchContext, i: nat): seq<Split>
    decreases |vals| - i
  {
    if i >= |vals| then []
    else if HeadOk(h, vals[i]) then
      [Split(WithMatch(ctx, vals[..i + 1]), vals[i + 1..])] + Prefixes(h, vals, ctx, i + 1)
    else []
  }

  /** PatternMatching.SequenceMatch.  With no patterns left it succeeds once
      exactly when no values are left; as written it then runs on into
      `First()` of the empty pattern list, which throws. */
  function SequenceMatch(build: Build, test: Value -> bool, pps: seq<Pattern>, vals: seq<Value>, ctx: MatchContext): Stream<MatchResult>
    decreases PsSize(pps), 2, 0
  {
    if pps == [] then
      if vals == [] then
        Stream([WithMatch(ctx, [])], if build == AsWritten then Some(SequenceExhausted) else None)
      else Done([])
    else
      PsSizeFirst(pps);
      var splits := MatchSeq(build, test, pps[0], vals, ctx);
      SeqContinue(build, test, pps[1..], splits.items, splits.fault)
  }

  /** The nested loops of SequenceMatch over the splits of the first
      pattern. */
  function SeqContinue(build: Build, test: Value -> bool, rest: seq<Pattern>,
                       splits: seq<Split>, splitFault: Option<Fault>): Stream<MatchResult>
    decreases PsSize(rest), 3, |splits|
  {
    if splits == [] then Stream([], splitFault)
    else
      var s := splits[0];
      var inner := SequenceMatch(build, test, rest, s.rest, s.result.context);
      Append(StreamMap(inner, (r: MatchResult) => Ok(Concat(s.result, r))),
             SeqContinue(build, test, rest, splits[1..], splitFault))
  }

  // ---------------------------------------------------------------------
  // Entry points

  /** PatternMatching.IsMatch: `Any()` over the matches of the compiled
      pattern from an empty context; an exception before the first match
      propagates. */
  function IsMatch(build: Build, test: Value -> bool, pattern: Value, v: Value): (r: Result<bool>)
    ensures r == Ok(true) <==> |Match(build, test, Compile(pattern), v, EmptyContext).items| > 0
  {
    var s := Match(build, test, Compile(pattern), v, EmptyContext);
    if |s.items| > 0 then Ok(true)
    else if s.fault.Some? then Err(s.fault.value)
    else Ok(false)
  }

  /** PatternMatching.FindAndApplyRule: the first match of the first rule
      that has one, applied to that rule's right-hand side; `None` when no
      rule matches. */
  function FindAndApplyRule(build: Build, test: Value -> bool, original: Value, rules: seq<Rule>): Result<Option<Value>> {
    if rules == [] then Ok(None)
    else
      var s := Match(build, test, rules[0].lhs, original, EmptyContext);
      if |s.items| > 0 then
        Ok(Some(ToSingle(SymbolSubstitute(build, rules[0].rhs, s.items[0].context.captures))))
      else if s.fault.Some? then Err(s.fault.value)
      else FindAndApplyRule(build, test, original, rules[1..])
  }
}
