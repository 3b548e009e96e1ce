/** The native implementations that need no engine state: `Append`, `Apply`,
    the `Plus` / `Times` folding of NumericImplementations and the older
    `Plus` of NumericOperations.  Each answers a hook call: `None` for
    `null` (not applicable), otherwise the new value and the needMore flag
    it reports.
 */
module Builtins {
  import opened Wrappers
  import opened Numbers
  import opened Values

  const AppendName: string := SystemContext + "Append"
  const ApplyName: string := SystemContext + "Apply"
  const PlusName: string := SystemContext + "Plus"
  const TimesName: string := SystemContext + "Times"

  // ---------------------------------------------------------------------
  // Append

  /** ElementaryImplementations.Append: `Append[e, x]` with an expression
      `e` is `e` with `x` added as its last part; a wrong head, a part count
      other than two or an atomic `e` gives `null`. */
  function Append(expr: Value): (r: Option<(Value, bool)>)
    requires expr.Expr?
    ensures r.Some? <==>
      ValueEq(expr.head, Sym(AppendName)) && |expr.parts| == 2 && expr.parts[0].Expr?
    ensures r.Some? ==>
      var e := expr.parts[0];
      var (v, needMore) := r.value;
      needMore && v.Expr? && v.head == e.head &&
      |v.parts| == |e.parts| + 1 && v.parts[..|e.parts|] == e.parts && v.parts[|e.parts|] == expr.parts[1]
  {
    if !ValueEq(expr.head, Sym(AppendName)) then None
    else if |expr.parts| != 2 then None
    else
      var e := expr.parts[0];
      if e.Expr? then Some((Expr(e.head, e.parts + [expr.parts[1]]), true))
      else None
  }

  // ---------------------------------------------------------------------
  // Apply

  /** ElementaryImplementations.DoApply at level 0: an expression gets the
      new head and keeps its parts; an atom is returned as it is. */
  function DoApply(f: Value, target: Value): (r: Value)
    ensures target.Expr? ==> r.Expr? && r.head == f && r.parts == target.parts
    ensures !target.Expr? ==> r == target
  {
    if target.Expr? then Expr(f, target.parts) else target
  }

  /** ElementaryImplementations.Apply: the operator form `Apply[f][e]` and
      the two-argument form `Apply[f, e]`; `Apply[f]` alone and every other
      shape give `null`. */
  function Apply(expr: Value): (r: Option<(Value, bool)>)
    requires expr.Expr?
    ensures r.Some? ==> r.value.1
    ensures expr.head == Sym(ApplyName) ==> (r.Some? <==> |expr.parts| == 2)
  {
    if expr.head.Expr? then
      var hexpr := expr.head;
      if hexpr.head == Sym(ApplyName) && |hexpr.parts| == 1 && |expr.parts| == 1 then
        Some((DoApply(hexpr.parts[0], expr.parts[0]), true))
      else None
    else if expr.head == Sym(ApplyName) then
      if |expr.parts| == 2 then Some((DoApply(expr.parts[0], expr.parts[1]), true))
      else None
    else None
  }

  /** `Apply[f, g[a...]]` is `f[a...]`, `Apply[f, atom]` is the atom, the
      operator form agrees with the two-argument form, and `Apply[f]` alone
      gives `null`. */
  lemma ApplyForms(f: Value, target: Value)
    ensures var two := Apply(Expr(Sym(ApplyName), [f, target]));
      two.Some? && two.value.1 &&
      (target.Expr? ==> two.value.0 == Expr(f, target.parts)) &&
      (!target.Expr? ==> two.value.0 == target)
    ensures Apply(Expr(Expr(Sym(ApplyName), [f]), [target])) == Apply(Expr(Sym(ApplyName), [f, target]))
    ensures Apply(Expr(Sym(ApplyName), [f])).None?
  {
  }

  // ---------------------------------------------------------------------
  // Plus and Times

  /** The parts that are not numbers, in order. */
  function NonNumbers(ps: seq<Value>): (r: seq<Value>)
    ensures |r| <= |ps|
    ensures forall x :: x in r ==> x in ps && !x.Num?
    ensures forall x :: x in ps && !x.Num? ==> x in r
  {
    if ps == [] then [] else (if ps[0].Num? then [] else [ps[0]]) + NonNumbers(ps[1..])
  }

  /** How many parts are numbers. */
  function NumberCount(ps: seq<Value>): (n: nat)
    ensures n <= |ps|
    ensures n == 0 <==> forall k :: 0 <= k < |ps| ==> !ps[k].Num?
    ensures n + |NonNumbers(ps)| == |ps|
  {
    if ps == [] then 0 else (if ps[0].Num? then 1 else 0) + NumberCount(ps[1..])
  }

  /** The binary operation the fold applies. */
  datatype Op = AddOp | MulOp

  function Apply2(op: Op, a: Number, b: Number): Result<Number> {
    match op
    case AddOp => Add(a, b)
    case MulOp => Mul(a, b)
  }

  /** The left fold of the numeric parts with `op`, from the left: `None`
      when there are none; an exception of `op` ends it. */
  function FoldNumbers(op: Op, acc: Option<Number>, ps: seq<Value>): (r: Result<Option<Number>>)
    ensures r.Ok? && r.value.None? ==> acc.None? && NumberCount(ps) == 0
    ensures r.Ok? && NumberCount(ps) == 0 ==> r.value == acc
    ensures r.Ok? && acc.Some? ==> r.value.Some?
    ensures NumberCount(ps) == 0 ==> r == Ok(acc)
    ensures acc.None? && NumberCount(ps) == 1 ==> r.Ok? && r.value.Some?
    decreases |ps|
  {
    if ps == [] then Ok(acc)
    else if ps[0].Num? then
      var next :- if acc.None? then Ok(ps[0].n) else Apply2(op, acc.value, ps[0].n);
      FoldNumbers(op, Some(next), ps[1..])
    else FoldNumbers(op, acc, ps[1..])
  }

  /** NumericImplementations.NumericOp: fold the numbers; all numbers give
      the total; no numbers leave the expression alone; a total equal to the
      identity is dropped; a single number leaves the expression alone;
      otherwise the non-numbers are followed by the total. */
  function NumericOp(expr: Value, identity: Number, op: Op): (r: Result<Option<(Value, bool)>>)
    requires expr.Expr?
    ensures r.Ok? ==> r.value.Some?
    ensures r.Ok? && !r.value.value.1 ==> r.value.value.0 == expr
  {
    var total :- FoldNumbers(op, None, expr.parts);
    var nonNum := NonNumbers(expr.parts);
    if nonNum == [] then
      if total.None? then Err(NullResult) else Ok(Some((Num(total.value), true)))
    else if total.None? then Ok(Some((expr, false)))
    else if NumberEq(total.value, identity) then
      if |nonNum| == 1 then Ok(Some((nonNum[0], true)))
      else Ok(Some((Expr(expr.head, nonNum), true)))
    else if NumberCount(expr.parts) == 1 then Ok(Some((expr, false)))
    else Ok(Some((Expr(expr.head, nonNum + [Num(total.value)]), true)))
  }

  /** NumericImplementations.Plus: for the `Plus` head, the fold with `Add`
      and identity 0. */
  function Plus(expr: Value): Result<Option<(Value, bool)>>
    requires expr.Expr?
  {
    if expr.head != Sym(PlusName) then Ok(None)
    else NumericOp(expr, Ex(Zero), AddOp)
  }

  /** The identity `Times` passes to the fold: zero as written, one
      corrected. */
  function TimesIdentity(build: Build): Number {
    if build == AsWritten then Ex(Zero) else Ex(One)
  }

  /** NumericImplementations.Times: `Times[-1, n]` with a number `n` is
      `Neg(n)`; otherwise, for the `Times` head, the fold with `Mul`. */
  function Times(build: Build, expr: Value): Result<Option<(Value, bool)>>
    requires expr.Expr?
  {
    if expr.head != Sym(TimesName) then Ok(None)
    else if |expr.parts| == 2 && ValueEq(expr.parts[0], Num(Ex(Int(-1)))) && expr.parts[1].Num? then
      Ok(Some((Num(Neg(expr.parts[1].n)), true)))
    else NumericOp(expr, TimesIdentity(build), MulOp)
  }

  /** NumericOperations.Plus, the older variant: fewer than two numbers leave
      the expression alone; otherwise the sum, after the non-numbers if there
      are any. */
  function PlusSum(expr: Value): (r: Result<Option<(Value, bool)>>)
    requires expr.Expr?
    ensures expr.head != Sym(PlusName) ==> r == Ok(None)
    ensures expr.head == Sym(PlusName) && NumberCount(expr.parts) < 2 ==> r == Ok(Some((expr, false)))
  {
    if expr.head != Sym(PlusName) then Ok(None)
    else
      var total :- FoldNumbers(AddOp, None, expr.parts);
      var nonNum := NonNumbers(expr.parts);
      if NumberCount(expr.parts) < 2 then Ok(Some((expr, false)))
      else if nonNum == [] then Ok(Some((Num(total.value), true)))
      else Ok(Some((Expr(expr.head, nonNum + [Num(total.value)]), true)))
  }

  // ---------------------------------------------------------------------
  // What the folding promises

  /** The cases of NumericOp, in terms of the non-numbers, the number count
      and the fold of the numbers. */
  lemma NumericOpCases(expr: Value, identity: Number, op: Op)
    requires expr.Expr?
    ensures var ps := expr.parts;
      var t := FoldNumbers(op, None, ps);
      var nonNum := NonNumbers(ps);
      var r := NumericOp(expr, identity, op);
      (t.Err? ==> r == Err(t.error)) &&
      (t.Ok? ==>
        (NumberCount(ps) == 0 && ps == [] ==> r == Err(NullResult)) &&
        (NumberCount(ps) > 0 && nonNum == [] ==> r == Ok(Some((Num(t.value.value), true)))) &&
        (NumberCount(ps) == 0 && ps != [] ==> r == Ok(Some((expr, false)))) &&
        (NumberCount(ps) > 0 && nonNum != [] && NumberEq(t.value.value, identity) ==>
           r == Ok(Some((if |nonNum| == 1 then nonNum[0] else Expr(expr.head, nonNum), true)))) &&
        (NumberCount(ps) == 1 && nonNum != [] && !NumberEq(t.value.value, identity) ==>
           r == Ok(Some((expr, false)))) &&
        (NumberCount(ps) > 1 && nonNum != [] && !NumberEq(t.value.value, identity) ==>
           r == Ok(Some((Expr(expr.head, nonNum + [Num(t.value.value)]), true)))))
  {
    var ps := expr.parts;
    if NumberCount(ps) == 0 && ps != [] {
      assert ps[0] in ps;
      assert NonNumbers(ps) != [];
    }
  }

  /** The non-numbers keep their original relative order: the non-numbers
      of a concatenation are those of each piece, concatenated. */
  lemma {:induction false} NonNumbersConcat(ps: seq<Value>, qs: seq<Value>)
    ensures NonNumbers(ps + qs) == NonNumbers(ps) + NonNumbers(qs)
  {
    if ps != [] {
      assert (ps + qs)[1..] == ps[1..] + qs;
      assert (ps + qs)[0] == ps[0];
      NonNumbersConcat(ps[1..], qs);
    } else {
      assert ps + qs == qs;
    }
  }

  /** Parts none of which is a number are kept whole. */
  lemma {:induction false} NonNumbersKeepsTerms(ps: seq<Value>)
    requires forall k :: 0 <= k < |ps| ==> !ps[k].Num?
    ensures NonNumbers(ps) == ps
  {
    if ps != [] {
      assert forall k :: 0 <= k < |ps[1..]| ==> ps[1..][k] == ps[k + 1];
      NonNumbersKeepsTerms(ps[1..]);
      assert ps == [ps[0]] + ps[1..];
    }
  }

  /** The integers among the parts. */
  predicate AllIntegers(ps: seq<Value>) {
    forall k :: 0 <= k < |ps| ==> ps[k].Num? && ps[k].n.Ex? && ps[k].n.e.Int?
  }

  function IntSum(ps: seq<Value>): int
    requires AllIntegers(ps)
    decreases |ps|
  {
    if ps == [] then 0 else ps[0].n.e.v + IntSum(ps[1..])
  }

  function IntProduct(ps: seq<Value>): int
    requires AllIntegers(ps)
    decreases |ps|
  {
    if ps == [] then 1 else ps[0].n.e.v * IntProduct(ps[1..])
  }

  /** On integers the `Add` fold computes the sum. */
  lemma {:induction false} SumFoldOfIntegers(acc: int, ps: seq<Value>)
    requires AllIntegers(ps)
    ensures FoldNumbers(AddOp, Some(Ex(Int(acc))), ps) == Ok(Some(Ex(Int(acc + IntSum(ps)))))
    decreases |ps|
  {
    if ps != [] {
      var x := ps[0].n.e.v;
      assert Add(Ex(Int(acc)), ps[0].n) == Ok(Ex(Int(acc + x)));
      SumFoldOfIntegers(acc + x, ps[1..]);
    }
  }

  /** On integers the `Mul` fold computes the product. */
  lemma {:induction false} ProductFoldOfIntegers(acc: int, ps: seq<Value>)
    requires AllIntegers(ps)
    ensures FoldNumbers(MulOp, Some(Ex(Int(acc))), ps) == Ok(Some(Ex(Int(acc * IntProduct(ps)))))
    decreases |ps|
  {
    if ps != [] {
      var x := ps[0].n.e.v;
      var rest := IntProduct(ps[1..]);
      assert Mul(Ex(Int(acc)), ps[0].n) == Ok(Ex(Int(acc * x)));
      ProductFoldOfIntegers(acc * x, ps[1..]);
      assert acc * x * rest == acc * (x * rest);
    }
  }

  /** A sequence of integers has no non-numbers. */
  lemma IntegersAreNumbers(ps: seq<Value>)
    requires AllIntegers(ps)
    ensures NonNumbers(ps) == []
    ensures NumberCount(ps) == |ps|
  {
  }

  /** `Plus` of integers alone is their sum. */
  lemma PlusOfIntegers(ps: seq<Value>)
    requires AllIntegers(ps) && ps != []
    ensures Plus(Expr(Sym(PlusName), ps)) == Ok(Some((Num(Ex(Int(IntSum(ps)))), true)))
  {
    SumFoldOfIntegers(ps[0].n.e.v, ps[1..]);
    IntegersAreNumbers(ps);
  }

  /** `Times` of integers alone is their product. */
  lemma TimesOfIntegers(build: Build, ps: seq<Value>)
    requires AllIntegers(ps) && ps != []
    requires !(|ps| == 2 && ps[0].n.e.v == -1)
    ensures Times(build, Expr(Sym(TimesName), ps)) == Ok(Some((Num(Ex(Int(IntProduct(ps)))), true)))
  {
    ProductFoldOfIntegers(ps[0].n.e.v, ps[1..]);
    IntegersAreNumbers(ps);
    if |ps| == 2 {
      NumberEqIsNormalFormEquality(ps[0].n, Ex(Int(-1)));
      assert !ValueEq(ps[0], Num(Ex(Int(-1))));
    }
  }

  /** `Times[-1, n]` negates the number. */
  lemma TimesMinusOne(build: Build, n: Number)
    ensures Times(build, Expr(Sym(TimesName), [Num(Ex(Int(-1))), Num(n)])) == Ok(Some((Num(Neg(n)), true)))
  {
  }

  /** The parts `[x, n]` with one non-number `x` and one number `n`. */
  lemma OneTermOneNumber(op: Op, x: Value, n: Number)
    requires !x.Num?
    ensures FoldNumbers(op, None, [x, Num(n)]) == Ok(Some(n))
    ensures NonNumbers([x, Num(n)]) == [x]
    ensures NumberCount([x, Num(n)]) == 1
  {
    var ps := [x, Num(n)];
    assert ps[1..] == [Num(n)];
    assert [Num(n)][1..] == [];
    assert FoldNumbers(op, Some(n), []) == Ok(Some(n));
    assert FoldNumbers(op, None, [Num(n)]) == Ok(Some(n));
    assert NonNumbers([Num(n)]) == [];
    assert NumberCount([Num(n)]) == 1;
  }

  /** `x + n` with one non-number `x` is rewritten to `x` exactly when `n`
      equals 0; otherwise it is left alone. */
  lemma PlusSingleTerm(x: Value, n: Number)
    requires !x.Num?
    ensures NumberEq(n, Ex(Zero)) ==> Plus(Expr(Sym(PlusName), [x, Num(n)])) == Ok(Some((x, true)))
    ensures !NumberEq(n, Ex(Zero)) ==> Plus(Expr(Sym(PlusName), [x, Num(n)])) == Ok(Some((Expr(Sym(PlusName), [x, Num(n)]), false)))
  {
    OneTermOneNumber(AddOp, x, n);
  }

  /** Corrected, `x * n` with one non-number `x` is rewritten to `x` exactly
      when `n` equals 1, and left alone otherwise. */
  lemma CorrectedTimesSingleFactor(x: Value, n: Number)
    requires !x.Num?
    ensures NumberEq(n, Ex(One)) ==> Times(Corrected, Expr(Sym(TimesName), [x, Num(n)])) == Ok(Some((x, true)))
    ensures !NumberEq(n, Ex(One)) ==>
      Times(Corrected, Expr(Sym(TimesName), [x, Num(n)])) == Ok(Some((Expr(Sym(TimesName), [x, Num(n)]), false)))
  {
    OneTermOneNumber(MulOp, x, n);
    assert !ValueEq(x, Num(Ex(Int(-1))));
  }

  /** As written, `Times` drops a zero factor: `x * 0` becomes `x`, while
      `x * 1` is left alone. */
  lemma TimesZeroCounterexample(x: Value)
    requires !x.Num?
    ensures Times(AsWritten, Expr(Sym(TimesName), [x, Num(Ex(Zero))])) == Ok(Some((x, true)))
    ensures Times(AsWritten, Expr(Sym(TimesName), [x, Num(Ex(One))])) ==
      Ok(Some((Expr(Sym(TimesName), [x, Num(Ex(One))]), false)))
  {
    OneTermOneNumber(MulOp, x, Ex(Zero));
    OneTermOneNumber(MulOp, x, Ex(One));
    assert !ValueEq(x, Num(Ex(Int(-1))));
    assert NumberEq(Ex(Zero), Ex(Zero)) && !NumberEq(Ex(One), Ex(Zero));
  }

  /** The older `Plus`: two or more numbers are summed and put after the
      non-numbers, which keep their order. */
  lemma PlusSumCases(expr: Value)
    requires expr.Expr? && expr.head == Sym(PlusName) && NumberCount(expr.parts) >= 2
    ensures var t := FoldNumbers(AddOp, None, expr.parts);
      var nonNum := NonNumbers(expr.parts);
      (t.Err? ==> PlusSum(expr) == Err(t.error)) &&
      (t.Ok? && nonNum == [] ==> PlusSum(expr) == Ok(Some((Num(t.value.value), true)))) &&
      (t.Ok? && nonNum != [] ==> PlusSum(expr) == Ok(Some((Expr(expr.head, nonNum + [Num(t.value.value)]), true))))
  {
  }
}
