/** What the matcher guarantees: every result accounts for exactly the values
    it was given, the pattern classes keep their promises about heads,
    captures and order, and the entry points report what the matches say.
 */
module MatcherProps {
  import opened Wrappers
  import opened Values
  import opened Patterns
  import opened Matcher

  // ---------------------------------------------------------------------
  // The stream combinators

  lemma StreamMapSource<T, U>(s: Stream<T>, f: T -> Result<U>, y: U) returns (x: T)
    requires y in StreamMap(s, f).items
    ensures x in s.items && f(x) == Ok(y)
  {
    var m := MapItems(s.items, f);
    var i :| 0 <= i < |m.items| && m.items[i] == y;
    x := s.items[i];
  }

  lemma AppendMember<T>(a: Stream<T>, b: Stream<T>, y: T)
    requires y in Append(a, b).items
    ensures y in a.items || (a.fault.None? && y in b.items)
  {
  }

  /** A total step maps every item and keeps the stream's ending. */
  lemma StreamMapTotal<T, U>(s: Stream<T>, f: T -> Result<U>)
    requires forall x :: x in s.items ==> f(x).Ok?
    ensures |StreamMap(s, f).items| == |s.items|
    ensures StreamMap(s, f).fault == s.fault
    ensures forall i :: 0 <= i < |s.items| ==> f(s.items[i]) == Ok(StreamMap(s, f).items[i])
  {
  }

  // ---------------------------------------------------------------------
  // Every result accounts for exactly its input

  /** A `Match` result consumes exactly the matched value. */
  lemma {:induction false} MatchConsumesValue(build: Build, test: Value -> bool, p: Pattern, v: Value, ctx: MatchContext)
    ensures forall r :: r in Match(build, test, p, v, ctx).items ==> r.consumed == [v]
    decreases PSize(p), 0, 0
  {
    match p
    case Named(n, q) =>
      MatchConsumesValue(build, test, q, v, ctx);
      forall r | r in Match(build, test, p, v, ctx).items
        ensures r.consumed == [v]
      {
        var x := StreamMapSource(Match(build, test, q, v, ctx), r => NameResult(n, r), r);
      }
    case ExprPat(hp, pps) =>
      if v.Expr? {
        MatchConsumesValue(build, test, hp, v.head, ctx);
        var heads := Match(build, test, hp, v.head, ctx);
        ExprMatchesConsumeValue(build, test, pps, v, heads.items, heads.fault);
      }
    case Condition(q, c) =>
      MatchConsumesValue(build, test, q, v, ctx);
    case _ =>
  }

  lemma {:induction false} ExprMatchesConsumeValue(build: Build, test: Value -> bool, pps: seq<Pattern>, v: Value,
                                                   heads: seq<MatchResult>, headFault: Option<Fault>)
    requires v.Expr?
    requires forall h :: h in heads ==> h.consumed == [v.head]
    ensures forall r :: r in ExprMatches(build, test, pps, v, heads, headFault).items ==> r.consumed == [v]
    decreases PsSize(pps), 3, |heads|
  {
    if heads != [] {
      var h := heads[0];
      var parts := SequenceMatch(build, test, pps, v.parts, h.context);
      SequenceMatchConsumesAll(build, test, pps, v.parts, h.context);
      ExprMatchesConsumeValue(build, test, pps, v, heads[1..], headFault);
      var f := (pr: MatchResult) => Ok(WithMatch(pr.context, [Expr(ToSingle(h.consumed), pr.consumed)]));
      var here := StreamMap(parts, f);
      forall r | r in ExprMatches(build, test, pps, v, heads, headFault).items
        ensures r.consumed == [v]
      {
        AppendMember(here, ExprMatches(build, test, pps, v, heads[1..], headFault), r);
        if r in here.items {
          var pr := StreamMapSource(parts, f, r);
          assert pr.consumed == v.parts;
          assert ToSingle(h.consumed) == v.head;
        }
      }
    }
  }

  /** A `MatchSequence` split divides the input: consumed group, then
      remainder. */
  lemma {:induction false} MatchSeqSplitsInput(build: Build, test: Value -> bool, p: Pattern, vals: seq<Value>, ctx: MatchContext)
    ensures forall s :: s in MatchSeq(build, test, p, vals, ctx).items ==> s.result.consumed + s.rest == vals
    decreases PSize(p), 1, 0
  {
    match p
    case BlankSeq(isNull, h) =>
      PrefixesSplitInput(h, vals, ctx, 0);
    case Named(n, q) =>
      MatchSeqSplitsInput(build, test, q, vals, ctx);
      forall s | s in MatchSeq(build, test, p, vals, ctx).items
        ensures s.result.consumed + s.rest == vals
      {
        var x := StreamMapSource(MatchSeq(build, test, q, vals, ctx), s => NameSplit(n, s), s);
      }
    case Condition(q, c) =>
      MatchSeqSplitsInput(build, test, q, vals, ctx);
    case _ =>
      if vals != [] {
        MatchConsumesValue(build, test, p, vals[0], ctx);
        forall s | s in MatchSeq(build, test, p, vals, ctx).items
          ensures s.result.consumed + s.rest == vals
        {
          var x := StreamMapSource(Match(build, test, p, vals[0], ctx), r => Ok(Split(r, vals[1..])), s);
          assert [vals[0]] + vals[1..] == vals;
        }
      }
  }

  lemma {:induction false} PrefixesSplitInput(h: Option<Value>, vals: seq<Value>, ctx: MatchContext, i: nat)
    ensures forall s :: s in Prefixes(h, vals, ctx, i) ==> s.result.consumed + s.rest == vals
    decreases |vals| - i
  {
    if i < |vals| && HeadOk(h, vals[i]) {
      PrefixesSplitInput(h, vals, ctx, i + 1);
      assert vals[..i + 1] + vals[i + 1..] == vals;
    }
  }

  /** Every `SequenceMatch` success consumes the whole list of values. */
  lemma {:induction false} SequenceMatchConsumesAll(build: Build, test: Value -> bool, pps: seq<Pattern>, vals: seq<Value>, ctx: MatchContext)
    ensures forall r :: r in SequenceMatch(build, test, pps, vals, ctx).items ==> r.consumed == vals
    decreases PsSize(pps), 2, 0
  {
    if pps != [] {
      PsSizeFirst(pps);
      MatchSeqSplitsInput(build, test, pps[0], vals, ctx);
      var splits := MatchSeq(build, test, pps[0], vals, ctx);
      SeqContinueConsumesAll(build, test, pps[1..], splits.items, splits.fault, vals);
    }
  }

  lemma {:induction false} SeqContinueConsumesAll(build: Build, test: Value -> bool, rest: seq<Pattern>,
                                                  splits: seq<Split>, splitFault: Option<Fault>, vals: seq<Value>)
    requires forall s :: s in splits ==> s.result.consumed + s.rest == vals
    ensures forall r :: r in SeqContinue(build, test, rest, splits, splitFault).items ==> r.consumed == vals
    decreases PsSize(rest), 3, |splits|
  {
    if splits != [] {
      var s := splits[0];
      var inner := SequenceMatch(build, test, rest, s.rest, s.result.context);
      SequenceMatchConsumesAll(build, test, rest, s.rest, s.result.context);
      SeqContinueConsumesAll(build, test, rest, splits[1..], splitFault, vals);
      var f := (r: MatchResult) => Ok(Concat(s.result, r));
      forall r | r in SeqContinue(build, test, rest, splits, splitFault).items
        ensures r.consumed == vals
      {
        AppendMember(StreamMap(inner, f), SeqContinue(build, test, rest, splits[1..], splitFault), r);
        if r in StreamMap(inner, f).items {
          var x := StreamMapSource(inner, f, r);
        }
      }
    }
  }

  /** The value an expression pattern reports is the matched expression
      itself: `Expr(ToSingle(head consumed), parts consumed)` rebuilds it. */
  lemma ExprPatternRebuildsValue(build: Build, test: Value -> bool, hp: Pattern, pps: seq<Pattern>, v: Value, ctx: MatchContext)
    ensures !v.Expr? ==> Match(build, test, ExprPat(hp, pps), v, ctx).items == []
    ensures forall r :: r in Match(build, test, ExprPat(hp, pps), v, ctx).items ==> r.consumed == [v]
  {
    MatchConsumesValue(build, test, ExprPat(hp, pps), v, ctx);
  }

  // ---------------------------------------------------------------------
  // The single-value pattern classes

  /** BlankPattern: at most one result, present exactly when the head
      constraint is absent or equals the value's head; it consumes the value
      and leaves the captures alone. */
  lemma BlankMatchesIffHead(build: Build, test: Value -> bool, h: Option<Value>, v: Value, ctx: MatchContext)
    ensures var s := Match(build, test, Blank(h), v, ctx);
      s.fault.None? && |s.items| <= 1 &&
      (|s.items| == 1 <==> h.None? || ValueEq(h.value, HeadOf(v))) &&
      forall r :: r in s.items ==> r.context == ctx && r.consumed == [v]
  {
  }

  /** LiteralPattern: at most one result, present exactly when the literal
      equals the value; it consumes the value and leaves the captures
      alone. */
  lemma LiteralMatchesIffEqual(build: Build, test: Value -> bool, l: Value, v: Value, ctx: MatchContext)
    ensures var s := Match(build, test, Literal(l), v, ctx);
      s.fault.None? && |s.items| <= 1 &&
      (|s.items| == 1 <==> ValueEq(l, v)) &&
      forall r :: r in s.items ==> r.context == ctx && r.consumed == [v]
  {
  }

  /** A literal pattern compiled from a value without pattern forms matches
      that value once. */
  lemma LiteralMatchesItself(build: Build, test: Value -> bool, v: Value)
    requires !HasPatternForm(v)
    ensures Match(build, test, Compile(v), v, EmptyContext) == Done([WithMatch(EmptyContext, [v])])
  {
    CompileLiteralIffNoPatternForm(v);
    ValueEqIsEquivalence(v, v, v);
  }

  /** The default MatchSequence: nothing on an empty list; otherwise the
      `Match` results on the first value, in order, each with the rest of the
      list as remainder. */
  lemma DefaultMatchSequence(build: Build, test: Value -> bool, p: Pattern, vals: seq<Value>, ctx: MatchContext)
    requires p.Blank? || p.Literal? || p.ExprPat?
    ensures vals == [] ==> MatchSeq(build, test, p, vals, ctx) == Done([])
    ensures vals != [] ==>
      var m := Match(build, test, p, vals[0], ctx);
      var s := MatchSeq(build, test, p, vals, ctx);
      |s.items| == |m.items| && s.fault == m.fault &&
      forall i :: 0 <= i < |s.items| ==> s.items[i] == Split(m.items[i], vals[1..])
  {
    if vals != [] {
      StreamMapTotal(Match(build, test, p, vals[0], ctx), r => Ok(Split(r, vals[1..])));
    }
  }

  // ---------------------------------------------------------------------
  // BlankSequence and BlankNullSequence

  /** The length of the longest prefix of `vals` from index i on whose
      elements all pass the head test. */
  function RunLength(h: Option<Value>, vals: seq<Value>, i: nat): (n: nat)
    ensures i + n <= |vals| || n == 0
    ensures forall k :: i <= k < i + n ==> HeadOk(h, vals[k])
    ensures i + n < |vals| ==> !HeadOk(h, vals[i + n])
    decreases |vals| - i
  {
    if i < |vals| && HeadOk(h, vals[i]) then 1 + RunLength(h, vals, i + 1) else 0
  }

  /** The loop yields one split per element of the head-matching run, the
      k-th consuming the first i + k + 1 values, leaving captures alone. */
  lemma PrefixesAreTheRun(h: Option<Value>, vals: seq<Value>, ctx: MatchContext, i: nat)
    ensures var ps := Prefixes(h, vals, ctx, i);
      |ps| == RunLength(h, vals, i) &&
      forall k :: 0 <= k < |ps| ==>
        ps[k].result == WithMatch(ctx, vals[..i + k + 1]) && ps[k].rest == vals[i + k + 1..]
  {
    PrefixesPointwise(h, vals, ctx, i);
  }

  /** One split per element of the run. */
  lemma {:induction false} PrefixesLength(h: Option<Value>, vals: seq<Value>, ctx: MatchContext, i: nat)
    ensures |Prefixes(h, vals, ctx, i)| == RunLength(h, vals, i)
    decreases |vals| - i
  {
    if i < |vals| && HeadOk(h, vals[i]) {
      PrefixesLength(h, vals, ctx, i + 1);
    }
  }

  /** Split k of the loop from i is the cut after position i + k. */
  lemma PrefixesPointwise(h: Option<Value>, vals: seq<Value>, ctx: MatchContext, i: nat)
    ensures var ps := Prefixes(h, vals, ctx, i);
      |ps| == RunLength(h, vals, i) &&
      forall k :: 0 <= k < |ps| ==> ps[k] == Split(WithMatch(ctx, vals[..i + k + 1]), vals[i + k + 1..])
  {
    PrefixesLength(h, vals, ctx, i);
    var ps := Prefixes(h, vals, ctx, i);
    forall k | 0 <= k < |ps|
      ensures ps[k] == Split(WithMatch(ctx, vals[..i + k + 1]), vals[i + k + 1..])
    {
      PrefixAt(h, vals, ctx, i, k);
    }
  }

  /** The same for one k, by induction on k. */
  lemma {:induction false} PrefixAt(h: Option<Value>, vals: seq<Value>, ctx: MatchContext, i: nat, k: nat)
    requires k < RunLength(h, vals, i)
    ensures i + k + 1 <= |vals|
    ensures k < |Prefixes(h, vals, ctx, i)|
    ensures Prefixes(h, vals, ctx, i)[k] == Split(WithMatch(ctx, vals[..i + k + 1]), vals[i + k + 1..])
    decreases k
  {
    PrefixesLength(h, vals, ctx, i);
    assert i < |vals| && HeadOk(h, vals[i]);
    PrefixesUnfold(h, vals, ctx, i);
    if k > 0 {
      PrefixAt(h, vals, ctx, i + 1, k - 1);
      assert (i + 1) + (k - 1) + 1 == i + k + 1;
    }
  }

  /** One turn of the loop. */
  lemma PrefixesUnfold(h: Option<Value>, vals: seq<Value>, ctx: MatchContext, i: nat)
    requires i < |vals| && HeadOk(h, vals[i])
    ensures Prefixes(h, vals, ctx, i) == [Split(WithMatch(ctx, vals[..i + 1]), vals[i + 1..])] + Prefixes(h, vals, ctx, i + 1)
  {
  }

  /** Every element of the head-matching run passes the head test. */
  lemma {:induction false} RunPasses(h: Option<Value>, vals: seq<Value>, i: nat)
    ensures forall j :: i <= j < i + RunLength(h, vals, i) ==> j < |vals| && HeadOk(h, vals[j])
    decreases |vals| - i
  {
    if i < |vals| && HeadOk(h, vals[i]) {
      RunPasses(h, vals, i + 1);
      assert RunLength(h, vals, i) == 1 + RunLength(h, vals, i + 1);
    } else {
      assert RunLength(h, vals, i) == 0;
    }
  }

  /** The splits of the run from the start: the k-th consumes k + 1 values,
      all passing the head test, and keeps the context. */
  lemma PrefixSplits(h: Option<Value>, vals: seq<Value>, ctx: MatchContext)
    ensures var ps := Prefixes(h, vals, ctx, 0);
      |ps| == RunLength(h, vals, 0) &&
      forall k :: 0 <= k < |ps| ==>
        |ps[k].result.consumed| == k + 1 && ps[k].result.context == ctx &&
        forall j :: 0 <= j < |ps[k].result.consumed| ==> HeadOk(h, ps[k].result.consumed[j])
  {
    PrefixesAreTheRun(h, vals, ctx, 0);
    RunPasses(h, vals, 0);
    var ps := Prefixes(h, vals, ctx, 0);
    forall k | 0 <= k < |ps|
      ensures |ps[k].result.consumed| == k + 1 && ps[k].result.context == ctx
      ensures forall j :: 0 <= j < |ps[k].result.consumed| ==> HeadOk(h, ps[k].result.consumed[j])
    {
      var c := vals[..k + 1];
      assert ps[k].result.consumed == c;
      forall j | 0 <= j < |c|
        ensures HeadOk(h, c[j])
      {
        assert c[j] == vals[j];
      }
    }
  }

  /** BlankSequencePattern.MatchSequence: BlankNullSequence first yields the
      empty split; then one split per element of the longest head-matching
      prefix, consumed lengths strictly increasing; BlankSequence never
      consumes nothing; every consumed element passes the head test; the
      captures are never changed and nothing throws. */
  lemma BlankSequenceSplits(build: Build, test: Value -> bool, isNull: bool, h: Option<Value>, vals: seq<Value>, ctx: MatchContext)
    ensures var s := MatchSeq(build, test, BlankSeq(isNull, h), vals, ctx);
      var z := if isNull then 1 else 0;
      s.fault.None? &&
      |s.items| == z + RunLength(h, vals, 0) &&
      (isNull ==> s.items[0] == Split(WithMatch(ctx, []), vals)) &&
      (forall k :: 0 <= k < |s.items| ==> |s.items[k].result.consumed| == k + 1 - z) &&
      (forall k :: 0 <= k < |s.items| ==> s.items[k].result.context == ctx) &&
      (forall k, j :: 0 <= k < |s.items| && 0 <= j < |s.items[k].result.consumed| ==>
         HeadOk(h, s.items[k].result.consumed[j]))
  {
    PrefixSplits(h, vals, ctx);
    var ps := Prefixes(h, vals, ctx, 0);
    var first := if isNull then [Split(WithMatch(ctx, []), vals)] else [];
    assert MatchSeq(build, test, BlankSeq(isNull, h), vals, ctx) == Done(first + ps);
    ShiftedSplits(first, ps, h, ctx);
  }

  /** Putting at most one empty split in front of the run's splits shifts
      each consumed length by one and keeps the other facts. */
  lemma ShiftedSplits(first: seq<Split>, ps: seq<Split>, h: Option<Value>, ctx: MatchContext)
    requires |first| <= 1 && forall k :: 0 <= k < |first| ==> first[k].result == WithMatch(ctx, [])
    requires forall k :: 0 <= k < |ps| ==>
      |ps[k].result.consumed| == k + 1 && ps[k].result.context == ctx &&
      forall j :: 0 <= j < |ps[k].result.consumed| ==> HeadOk(h, ps[k].result.consumed[j])
    ensures var items := first + ps;
      (forall k :: 0 <= k < |items| ==> |items[k].result.consumed| == k + 1 - |first|) &&
      (forall k :: 0 <= k < |items| ==> items[k].result.context == ctx) &&
      (forall k, j :: 0 <= k < |items| && 0 <= j < |items[k].result.consumed| ==>
         HeadOk(h, items[k].result.consumed[j]))
  {
    var items := first + ps;
    forall k | 0 <= k < |items|
      ensures items[k] == if k < |first| then first[k] else ps[k - |first|]
    {
    }
  }

  /** Strictly increasing consumed lengths, stated pairwise. */
  lemma BlankSequenceLengthsIncrease(build: Build, test: Value -> bool, isNull: bool, h: Option<Value>, vals: seq<Value>, ctx: MatchContext)
    ensures var s := MatchSeq(build, test, BlankSeq(isNull, h), vals, ctx);
      forall k, j :: 0 <= k < j < |s.items| ==>
        |s.items[k].result.consumed| < |s.items[j].result.consumed|
    ensures !isNull ==> forall sp :: sp in MatchSeq(build, test, BlankSeq(isNull, h), vals, ctx).items ==>
      sp.result.consumed != []
  {
    BlankSequenceSplits(build, test, isNull, h, vals, ctx);
  }

  // ---------------------------------------------------------------------
  // NamedPattern and ConditionPattern

  /** NamedPattern.Match: the results follow the inner results one to one,
      in order, each binding the name to the inner consumed group and
      passing that group through; a name already bound throws. */
  lemma NamedFollowsInner(build: Build, test: Value -> bool, n: string, q: Pattern, v: Value, ctx: MatchContext)
    ensures var inner := Match(build, test, q, v, ctx);
      var s := Match(build, test, Named(n, q), v, ctx);
      |s.items| <= |inner.items| &&
      (forall i :: 0 <= i < |s.items| ==>
         s.items[i].consumed == inner.items[i].consumed &&
         n !in inner.items[i].context.captures &&
         s.items[i].context.captures == inner.items[i].context.captures[n := inner.items[i].consumed]) &&
      ((forall r :: r in inner.items ==> n !in r.context.captures) ==>
         |s.items| == |inner.items| && s.fault == inner.fault)
  {
    var inner := Match(build, test, q, v, ctx);
    assert Match(build, test, Named(n, q), v, ctx) == StreamMap(inner, r => NameResult(n, r));
    NamedResults(n, inner);
  }

  /** Naming each result of a stream: the named results follow the inner
      ones one to one and bind the name; when no inner result has the name
      bound already, none is dropped and the ending is the inner one. */
  lemma NamedResults(n: string, inner: Stream<MatchResult>)
    ensures var s := StreamMap(inner, r => NameResult(n, r));
      |s.items| <= |inner.items| &&
      (forall i :: 0 <= i < |s.items| ==>
         s.items[i].consumed == inner.items[i].consumed &&
         n !in inner.items[i].context.captures &&
         s.items[i].context.captures == inner.items[i].context.captures[n := inner.items[i].consumed]) &&
      ((forall r :: r in inner.items ==> n !in r.context.captures) ==>
         |s.items| == |inner.items| && s.fault == inner.fault)
  {
    var f := (r: MatchResult) => NameResult(n, r);
    var m := MapItems(inner.items, f);
    forall i | 0 <= i < |m.items|
      ensures m.items[i].consumed == inner.items[i].consumed
      ensures n !in inner.items[i].context.captures
      ensures m.items[i].context.captures == inner.items[i].context.captures[n := inner.items[i].consumed]
    {
      assert f(inner.items[i]) == Ok(m.items[i]);
    }
    if forall r :: r in inner.items ==> n !in r.context.captures {
      StreamMapTotal(inner, f);
    }
  }

  /** NamedPattern.MatchSequence: the same, with the inner remainders kept. */
  lemma NamedSequenceFollowsInner(build: Build, test: Value -> bool, n: string, q: Pattern, vals: seq<Value>, ctx: MatchContext)
    ensures var inner := MatchSeq(build, test, q, vals, ctx);
      var s := MatchSeq(build, test, Named(n, q), vals, ctx);
      |s.items| <= |inner.items| &&
      forall i :: 0 <= i < |s.items| ==>
        s.items[i].rest == inner.items[i].rest &&
        s.items[i].result.consumed == inner.items[i].result.consumed &&
        n !in inner.items[i].result.context.captures &&
        s.items[i].result.context.captures == inner.items[i].result.context.captures[n := inner.items[i].result.consumed]
  {
    var inner := MatchSeq(build, test, q, vals, ctx);
    assert MatchSeq(build, test, Named(n, q), vals, ctx) == StreamMap(inner, s => NameSplit(n, s));
    NamedSplits(n, inner);
  }

  /** Naming each split of a stream: the named splits follow the inner ones
      one to one, keep their remainders, and bind the name. */
  lemma NamedSplits(n: string, inner: Stream<Split>)
    ensures var s := StreamMap(inner, sp => NameSplit(n, sp));
      |s.items| <= |inner.items| &&
      forall i :: 0 <= i < |s.items| ==>
        s.items[i].rest == inner.items[i].rest &&
        s.items[i].result.consumed == inner.items[i].result.consumed &&
        n !in inner.items[i].result.context.captures &&
        s.items[i].result.context.captures == inner.items[i].result.context.captures[n := inner.items[i].result.consumed]
  {
    var f := (sp: Split) => NameSplit(n, sp);
    var m := MapItems(inner.items, f);
    forall i | 0 <= i < |m.items|
      ensures m.items[i].rest == inner.items[i].rest
      ensures m.items[i].result.consumed == inner.items[i].result.consumed
      ensures n !in inner.items[i].result.context.captures
      ensures m.items[i].result.context.captures == inner.items[i].result.context.captures[n := inner.items[i].result.consumed]
    {
      assert f(inner.items[i]) == Ok(m.items[i]);
    }
  }

  /** ConditionPattern: the inner results that pass the test, in their
      original order and unchanged, and the inner ending. */
  lemma ConditionFilters(build: Build, test: Value -> bool, q: Pattern, c: Value, v: Value, ctx: MatchContext)
    ensures var inner := Match(build, test, q, v, ctx);
      var s := Match(build, test, Condition(q, c), v, ctx);
      s.fault == inner.fault &&
      s.items == FilterItems(inner.items, r => Passes(build, test, c, r)) &&
      (forall r :: r in s.items <==> r in inner.items && Passes(build, test, c, r))
  {
  }

  lemma ConditionSequenceFilters(build: Build, test: Value -> bool, q: Pattern, c: Value, vals: seq<Value>, ctx: MatchContext)
    ensures var inner := MatchSeq(build, test, q, vals, ctx);
      var s := MatchSeq(build, test, Condition(q, c), vals, ctx);
      s.fault == inner.fault &&
      (forall sp :: sp in s.items <==> sp in inner.items && Passes(build, test, c, sp.result))
  {
    var inner := MatchSeq(build, test, q, vals, ctx);
    var keep := (sp: Split) => Passes(build, test, c, sp.result);
    assert MatchSeq(build, test, Condition(q, c), vals, ctx) == Stream(FilterItems(inner.items, keep), inner.fault);
    forall sp ensures sp in FilterItems(inner.items, keep) <==> sp in inner.items && Passes(build, test, c, sp.result) {
      assert keep(sp) == Passes(build, test, c, sp.result);
    }
  }

  // ---------------------------------------------------------------------
  // MatchResult and MatchContext

  /** Concat keeps the second context, joins the consumed groups in order,
      and is associative. */
  lemma ConcatLaws(a: MatchResult, b: MatchResult, c: MatchResult)
    ensures Concat(a, b).context == b.context
    ensures |Concat(a, b).consumed| == |a.consumed| + |b.consumed|
    ensures Concat(a, b).consumed[..|a.consumed|] == a.consumed
    ensures Concat(a, b).consumed[|a.consumed|..] == b.consumed
    ensures Concat(Concat(a, b), c) == Concat(a, Concat(b, c))
  {
  }

  // ---------------------------------------------------------------------
  // Entry points

  /** IsMatch is true exactly when the compiled pattern has a match, false
      exactly when it has none and nothing throws. */
  lemma IsMatchIffSomeMatch(build: Build, test: Value -> bool, pattern: Value, v: Value)
    ensures var s := Match(build, test, Compile(pattern), v, EmptyContext);
      (IsMatch(build, test, pattern, v) == Ok(true) <==> s.items != []) &&
      (IsMatch(build, test, pattern, v) == Ok(false) <==> s.items == [] && s.fault.None?)
  {
  }

  /** The rules that have a match, from an empty context. */
  predicate RuleMatches(build: Build, test: Value -> bool, original: Value, rule: Rule) {
    Match(build, test, rule.lhs, original, EmptyContext).items != []
  }

  /** FindAndApplyRule answers `None` exactly when no rule matches and no
      match enumeration throws; otherwise the earliest matching rule,
      through its first match, decides the answer. */
  lemma {:induction false} FindAndApplyRuleFirstMatch(build: Build, test: Value -> bool, original: Value, rules: seq<Rule>)
    ensures var r := FindAndApplyRule(build, test, original, rules);
      (r == Ok(None) <==>
        forall k :: 0 <= k < |rules| ==>
          Match(build, test, rules[k].lhs, original, EmptyContext) == Done([]))
    ensures forall k :: (0 <= k < |rules| && RuleMatches(build, test, original, rules[k]) &&
      forall j :: 0 <= j < k ==> Match(build, test, rules[j].lhs, original, EmptyContext) == Done([])) ==>
        var m := Match(build, test, rules[k].lhs, original, EmptyContext).items[0];
        FindAndApplyRule(build, test, original, rules) ==
          Ok(Some(ToSingle(SymbolSubstitute(build, rules[k].rhs, m.context.captures))))
  {
    if rules != [] {
      FindAndApplyRuleFirstMatch(build, test, original, rules[1..]);
      var s := Match(build, test, rules[0].lhs, original, EmptyContext);
      if s == Done([]) {
        forall k | 1 <= k < |rules| && RuleMatches(build, test, original, rules[k]) &&
          (forall j :: 0 <= j < k ==> Match(build, test, rules[j].lhs, original, EmptyContext) == Done([]))
          ensures var m := Match(build, test, rules[k].lhs, original, EmptyContext).items[0];
            FindAndApplyRule(build, test, original, rules) ==
              Ok(Some(ToSingle(SymbolSubstitute(build, rules[k].rhs, m.context.captures))))
        {
          assert rules[k] == rules[1..][k - 1];
          forall j | 0 <= j < k - 1
            ensures Match(build, test, rules[1..][j].lhs, original, EmptyContext) == Done([])
          {
            assert rules[1..][j] == rules[j + 1];
          }
        }
        if FindAndApplyRule(build, test, original, rules) == Ok(None) {
          forall k | 0 <= k < |rules|
            ensures Match(build, test, rules[k].lhs, original, EmptyContext) == Done([])
          {
            if k > 0 {
              assert rules[k] == rules[1..][k - 1];
            }
          }
        }
      } else {
        if s.items == [] {
          assert s.fault.Some?;
        }
      }
    }
  }

  // ---------------------------------------------------------------------
  // Finding: SequenceMatch runs past its success into `First()`

  /** As written, `g[f[_], c]` against `g[f[a], d]` throws: the inner
      `f[_]` succeeds on `f[a]`, the outer `c` then fails on `d`, and asking
      the inner enumeration for a second match resumes past its only success
      into `First()` of the empty pattern list.  Corrected, the answer is
      "no match". */
  lemma SequenceMatchResumeCounterexample(test: Value -> bool)
    ensures var g := Sym("Global`g");
      var f := Sym("Global`f");
      var pattern := Expr(g, [Expr(f, [Expr(Sym(BlankName), [])]), Sym("Global`c")]);
      var v := Expr(g, [Expr(f, [Sym("Global`a")]), Sym("Global`d")]);
      IsMatch(AsWritten, test, pattern, v) == Err(SequenceExhausted) &&
      IsMatch(Corrected, test, pattern, v) == Ok(false)
  {
    var g := Sym("Global`g");
    var f := Sym("Global`f");
    var c := Sym("Global`c");
    var blank := Expr(Sym(BlankName), []);
    var fb := Expr(f, [blank]);
    var pattern := Expr(g, [fb, c]);
    assert IsPatternForm(blank);
    assert Compile(blank) == Blank(None);
    assert !IsPatternForm(fb);
    assert Compile(f) == Literal(f);
    var ips := seq(|fb.parts|, i requires 0 <= i < |fb.parts| => Compile(fb.parts[i]));
    assert ips[0] == Blank(None) && |ips| == 1;
    assert Compile(fb) == ExprPat(Literal(f), ips);
    assert !IsPatternForm(pattern);
    assert Compile(g) == Literal(g);
    var ops := seq(|pattern.parts|, i requires 0 <= i < |pattern.parts| => Compile(pattern.parts[i]));
    assert ops[0] == ExprPat(Literal(f), [Blank(None)]) && ops[1] == Literal(c) && |ops| == 2;
    assert Compile(pattern) == ExprPat(Literal(g), ops);
    assert ops == [ExprPat(Literal(f), [Blank(None)]), Literal(c)];
    ResumeOuter(AsWritten, test);
    ResumeOuter(Corrected, test);
  }

  /** `f[_]` against `f[a]`: one match, then the resume exception as
      written. */
  lemma ResumeInner(build: Build, test: Value -> bool)
    ensures var fa := Match(build, test, ExprPat(Literal(Sym("Global`f")), [Blank(None)]),
                            Expr(Sym("Global`f"), [Sym("Global`a")]), EmptyContext);
      fa.items == [WithMatch(EmptyContext, [Expr(Sym("Global`f"), [Sym("Global`a")])])] &&
      fa.fault == (if build == AsWritten then Some(SequenceExhausted) else None)
  {
    var f := Sym("Global`f");
    var a := Sym("Global`a");
    var ctx := EmptyContext;
    var one := WithMatch(ctx, [a]);
    var fault := if build == AsWritten then Some(SequenceExhausted) else None;
    assert Match(build, test, Literal(f), f, ctx) == Done([WithMatch(ctx, [f])]);
    assert Match(build, test, Blank(None), a, ctx) == Done([one]);
    assert [a][1..] == [];
    assert MatchSeq(build, test, Blank(None), [a], ctx) == Done([Split(one, [])]);
    var empty := SequenceMatch(build, test, [], [], ctx);
    assert empty == Stream([WithMatch(ctx, [])], fault);
    var join := (r: MatchResult) => Ok(Concat(one, r));
    assert [a] + [] == [a];
    assert join(WithMatch(ctx, [])) == Ok(one);
    assert MapItems(empty.items, join) == Done([one]);
    var joined := StreamMap(empty, join);
    assert joined == Stream([one], fault);
    assert SeqContinue(build, test, [], [Split(one, [])], None) == Stream([one], fault);
    assert [Blank(None)][1..] == [];
    var parts := SequenceMatch(build, test, [Blank(None)], [a], ctx);
    assert parts == Stream([one], fault);
    var h := WithMatch(ctx, [f]);
    var here := StreamMap(parts, (pr: MatchResult) => Ok(WithMatch(pr.context, [Expr(ToSingle(h.consumed), pr.consumed)])));
    assert here == Stream([WithMatch(ctx, [Expr(f, [a])])], fault);
  }

  /** `f[_]` as the first of two patterns against `f[a], d`: the one split
      leaving `d`, then the resume exception as written. */
  lemma ResumeSplits(build: Build, test: Value -> bool)
    ensures var f, a := Sym("Global`f"), Sym("Global`a");
      MatchSeq(build, test, ExprPat(Literal(f), [Blank(None)]), [Expr(f, [a]), Sym("Global`d")], EmptyContext) ==
        Stream([Split(WithMatch(EmptyContext, [Expr(f, [a])]), [Sym("Global`d")])],
               if build == AsWritten then Some(SequenceExhausted) else None)
  {
    var f, a, d := Sym("Global`f"), Sym("Global`a"), Sym("Global`d");
    ResumeInner(build, test);
    assert [Expr(f, [a]), d][1..] == [d];
  }

  /** After that split, `c` fails on `d`, and the exception of the split
      enumeration surfaces. */
  lemma ResumeContinue(build: Build, test: Value -> bool, fault: Option<Fault>)
    ensures var f, a := Sym("Global`f"), Sym("Global`a");
      var r := WithMatch(EmptyContext, [Expr(f, [a])]);
      SeqContinue(build, test, [Literal(Sym("Global`c"))], [Split(r, [Sym("Global`d")])], fault) == Stream([], fault)
  {
    var c, d := Sym("Global`c"), Sym("Global`d");
    var ctx := EmptyContext;
    assert !ValueEq(c, d);
    assert Match(build, test, Literal(c), d, ctx) == Done([]);
    assert MatchSeq(build, test, Literal(c), [d], ctx) == Done([]);
    assert SequenceMatch(build, test, [Literal(c)], [d], ctx) == Done([]);
  }

  /** `g[f[_], c]` against `g[f[a], d]`: no match, and the resume exception
      as written. */
  lemma ResumeOuter(build: Build, test: Value -> bool)
    ensures var s := Match(build, test,
                           ExprPat(Literal(Sym("Global`g")), [ExprPat(Literal(Sym("Global`f")), [Blank(None)]), Literal(Sym("Global`c"))]),
                           Expr(Sym("Global`g"), [Expr(Sym("Global`f"), [Sym("Global`a")]), Sym("Global`d")]), EmptyContext);
      s.items == [] && s.fault == (if build == AsWritten then Some(SequenceExhausted) else None)
  {
    var g, f, a, c, d := Sym("Global`g"), Sym("Global`f"), Sym("Global`a"), Sym("Global`c"), Sym("Global`d");
    var ctx := EmptyContext;
    var inner := ExprPat(Literal(f), [Blank(None)]);
    var fault := if build == AsWritten then Some(SequenceExhausted) else None;
    var v := Expr(g, [Expr(f, [a]), d]);
    ResumeSplits(build, test);
    ResumeContinue(build, test, fault);
    SequenceMatchFirst(build, test, inner, [Literal(c)], v.parts, ctx);
    assert [inner] + [Literal(c)] == [inner, Literal(c)];
    ExprMatchesNoParts(build, test, [inner, Literal(c)], v, WithMatch(ctx, [g]), fault);
    assert Match(build, test, Literal(g), g, ctx) == Done([WithMatch(ctx, [g])]);
  }

  /** SequenceMatch of a non-empty pattern list: the continuations of the
      first pattern's splits. */
  lemma SequenceMatchFirst(build: Build, test: Value -> bool, p: Pattern, ps: seq<Pattern>, vals: seq<Value>, ctx: MatchContext)
    ensures var splits := MatchSeq(build, test, p, vals, ctx);
      SequenceMatch(build, test, [p] + ps, vals, ctx) == SeqContinue(build, test, ps, splits.items, splits.fault)
  {
    assert ([p] + ps)[0] == p && ([p] + ps)[1..] == ps;
  }

  /** ExprPattern with a single head match whose part patterns match
      nothing: no match, ending as the part enumeration ends. */
  lemma ExprMatchesNoParts(build: Build, test: Value -> bool, pps: seq<Pattern>, v: Value, h: MatchResult, fault: Option<Fault>)
    requires v.Expr?
    requires SequenceMatch(build, test, pps, v.parts, h.context) == Stream([], fault)
    ensures ExprMatches(build, test, pps, v, [h], None) == Stream([], fault)
  {
    assert [h][1..] == [];
  }

  /** The exceptions an enumeration may end with once SequenceMatch stops
      after its success: only the duplicate-capture one of `WithCapture`. */
  predicate OnlyCaptureFault(fault: Option<Fault>) {
    fault.None? || fault.value == DuplicateCapture
  }

  lemma StreamMapFault<T, U>(s: Stream<T>, f: T -> Result<U>)
    ensures var m := StreamMap(s, f);
      m.fault.Some? ==> m.fault == s.fault || exists x :: x in s.items && f(x) == Err(m.fault.value)
  {
    var m := MapItems(s.items, f);
    if m.fault.Some? {
      assert s.items[|m.items|] in s.items;
    }
  }

  /** Corrected, a match enumeration can only throw because a pattern name
      is bound twice; the spurious `First()` exception is gone. */
  lemma {:induction false} CorrectedMatchFaults(test: Value -> bool, p: Pattern, v: Value, ctx: MatchContext)
    ensures OnlyCaptureFault(Match(Corrected, test, p, v, ctx).fault)
    decreases PSize(p), 0, 0
  {
    match p
    case Named(n, q) =>
      CorrectedMatchFaults(test, q, v, ctx);
      StreamMapFault(Match(Corrected, test, q, v, ctx), r => NameResult(n, r));
    case ExprPat(hp, pps) =>
      if v.Expr? {
        CorrectedMatchFaults(test, hp, v.head, ctx);
        var heads := Match(Corrected, test, hp, v.head, ctx);
        CorrectedExprMatchesFaults(test, pps, v, heads.items, heads.fault);
      }
    case Condition(q, c) =>
      CorrectedMatchFaults(test, q, v, ctx);
    case _ =>
  }

  lemma {:induction false} CorrectedExprMatchesFaults(test: Value -> bool, pps: seq<Pattern>, v: Value,
                                                      heads: seq<MatchResult>, headFault: Option<Fault>)
    requires v.Expr? && OnlyCaptureFault(headFault)
    ensures OnlyCaptureFault(ExprMatches(Corrected, test, pps, v, heads, headFault).fault)
    decreases PsSize(pps), 3, |heads|
  {
    if heads != [] {
      var h := heads[0];
      CorrectedSequenceMatchFaults(test, pps, v.parts, h.context);
      CorrectedExprMatchesFaults(test, pps, v, heads[1..], headFault);
      var f := (pr: MatchResult) => Ok(WithMatch(pr.context, [Expr(ToSingle(h.consumed), pr.consumed)]));
      StreamMapFault(SequenceMatch(Corrected, test, pps, v.parts, h.context), f);
    }
  }

  lemma {:induction false} CorrectedMatchSeqFaults(test: Value -> bool, p: Pattern, vals: seq<Value>, ctx: MatchContext)
    ensures OnlyCaptureFault(MatchSeq(Corrected, test, p, vals, ctx).fault)
    decreases PSize(p), 1, 0
  {
    match p
    case BlankSeq(_, _) =>
    case Named(n, q) =>
      CorrectedMatchSeqFaults(test, q, vals, ctx);
      StreamMapFault(MatchSeq(Corrected, test, q, vals, ctx), s => NameSplit(n, s));
    case Condition(q, c) =>
      CorrectedMatchSeqFaults(test, q, vals, ctx);
    case _ =>
      if vals != [] {
        CorrectedMatchFaults(test, p, vals[0], ctx);
        StreamMapFault(Match(Corrected, test, p, vals[0], ctx), r => Ok(Split(r, vals[1..])));
      }
  }

  lemma {:induction false} CorrectedSequenceMatchFaults(test: Value -> bool, pps: seq<Pattern>, vals: seq<Value>, ctx: MatchContext)
    ensures OnlyCaptureFault(SequenceMatch(Corrected, test, pps, vals, ctx).fault)
    decreases PsSize(pps), 2, 0
  {
    if pps != [] {
      PsSizeFirst(pps);
      CorrectedMatchSeqFaults(test, pps[0], vals, ctx);
      var splits := MatchSeq(Corrected, test, pps[0], vals, ctx);
      CorrectedSeqContinueFaults(test, pps[1..], splits.items, splits.fault);
    }
  }

  lemma {:induction false} CorrectedSeqContinueFaults(test: Value -> bool, rest: seq<Pattern>,
                                                      splits: seq<Split>, splitFault: Option<Fault>)
    requires OnlyCaptureFault(splitFault)
    ensures OnlyCaptureFault(SeqContinue(Corrected, test, rest, splits, splitFault).fault)
    decreases PsSize(rest), 3, |splits|
  {
    if splits != [] {
      var s := splits[0];
      CorrectedSequenceMatchFaults(test, rest, s.rest, s.result.context);
      CorrectedSeqContinueFaults(test, rest, splits[1..], splitFault);
      StreamMapFault(SequenceMatch(Corrected, test, rest, s.rest, s.result.context), (r: MatchResult) => Ok(Concat(s.result, r)));
    }
  }

  /** Corrected, `IsMatch` throws only on a duplicated pattern name; in
      particular it answers for every pattern without names. */
  lemma CorrectedIsMatchFaults(test: Value -> bool, pattern: Value, v: Value)
    ensures IsMatch(Corrected, test, pattern, v).Err? ==> IsMatch(Corrected, test, pattern, v).error == DuplicateCapture
  {
    CorrectedMatchFaults(test, Compile(pattern), v, EmptyContext);
  }

  // ---------------------------------------------------------------------
  // Finding: SymbolSubstitute returns a rebuilt expression as its parts

  /** As written, substituting nothing into `f[1]` loses the head and gives
      the single part `1`; corrected, it gives `f[1]` back. */
  lemma SymbolSubstituteCounterexample()
    ensures var one := Num(Numbers.Ex(Numbers.Int(1)));
      var e := Expr(Sym("Global`f"), [one]);
      SymbolSubstitute(AsWritten, e, map[]) == [one] &&
      SymbolSubstitute(Corrected, e, map[]) == [e]
  {
    var one := Num(Numbers.Ex(Numbers.Int(1)));
    var ps := [one];
    var parts := seq(|ps|, i requires 0 <= i < |ps| => SymbolSubstitute(AsWritten, ps[i], map[]));
    assert parts == [[one]];
    assert Flatten(parts) == [one];
    var cparts := seq(|ps|, i requires 0 <= i < |ps| => SymbolSubstitute(Corrected, ps[i], map[]));
    assert cparts == [[one]];
    assert Flatten(cparts) == [one];
  }

  lemma {:induction false} FlattenSingletons(ps: seq<Value>, vss: seq<seq<Value>>)
    requires |vss| == |ps| && forall i :: 0 <= i < |ps| ==> vss[i] == [ps[i]]
    ensures Flatten(vss) == ps
  {
    if ps != [] {
      FlattenSingletons(ps[1..], vss[1..]);
    }
  }

  /** Corrected, substituting into a value that mentions no bound symbol
      gives back exactly that value. */
  lemma {:induction false} CorrectedSubstituteUnbound(v: Value, bound: map<string, seq<Value>>)
    requires forall n :: n in bound ==> !Mentions(v, n)
    ensures SymbolSubstitute(Corrected, v, bound) == [v]
  {
    match v
    case Expr(h, ps) =>
      CorrectedSubstituteUnbound(h, bound);
      var vss := seq(|ps|, i requires 0 <= i < |ps| => SymbolSubstitute(Corrected, ps[i], bound));
      forall i | 0 <= i < |ps|
        ensures vss[i] == [ps[i]]
      {
        assert ps[i] in ps;
        CorrectedSubstituteUnbound(ps[i], bound);
      }
      FlattenSingletons(ps, vss);
    case _ =>
  }

  /** The value contains the symbol `n` somewhere. */
  predicate Mentions(v: Value, n: string) {
    match v
    case Sym(m) => m == n
    case Expr(h, ps) => Mentions(h, n) || exists i :: 0 <= i < |ps| && Mentions(ps[i], n)
    case _ => false
  }

  /** Corrected, a bound symbol becomes its capture (made single when it
      stands alone), so a rule whose right-hand side is just its pattern
      name returns the whole captured group. */
  lemma CorrectedSubstituteBound(n: string, bound: map<string, seq<Value>>)
    requires n in bound
    ensures ToSingle(SymbolSubstitute(Corrected, Sym(n), bound)) == ToSingle(bound[n])
    ensures Mentions(Sym(n), n)
  {
  }
}
