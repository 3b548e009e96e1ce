/** Compiled patterns and the pattern compiler `CompilePattern`.
 */
module Patterns {
  import opened Wrappers
  import opened Values

  /** The pattern classes.  `Blank` and `BlankSeq` carry the optional head
      constraint; `Named` carries the full name of its symbol; `Condition`
      carries the unevaluated test.  The compiler never builds a
      `Condition`. */
  datatype Pattern =
    | Blank(head: Option<Value>)
    | BlankSeq(isNull: bool, head: Option<Value>)
    | Literal(lit: Value)
    | Named(name: string, inner: Pattern)
    | ExprPat(headPat: Pattern, partPats: seq<Pattern>)
    | Condition(body: Pattern, cond: Value)

  /** One entry of a symbol's rule lists: a compiled pattern and the value
      that replaces what it matches. */
  datatype Rule = Rule(lhs: Pattern, rhs: Value)

  function PSize(p: Pattern): nat {
    match p
    case Named(_, q) => 1 + PSize(q)
    case Condition(q, _) => 1 + PSize(q)
    case ExprPat(h, ps) => 1 + PSize(h) + PsSize(ps)
    case _ => 1
  }

  function PsSize(ps: seq<Pattern>): nat {
    if ps == [] then 0 else PSize(ps[0]) + PsSize(ps[1..])
  }

  lemma PsSizeFirst(ps: seq<Pattern>)
    requires ps != []
    ensures PsSize(ps) == PSize(ps[0]) + PsSize(ps[1..])
    ensures PsSize(ps[1..]) < PsSize(ps)
  {
  }

  const BlankName: string := SystemContext + "Blank"
  const BlankSequenceName: string := SystemContext + "BlankSequence"
  const BlankNullSequenceName: string := SystemContext + "BlankNullSequence"
  const PatternName: string := SystemContext + "Pattern"

  /** The expressions `CompilePattern` gives a class of its own:
      `Blank[]`, `Blank[h]`, the two blank sequences with at most one
      argument, and `Pattern[sym, p]`.  Any other arity or a non-symbol name
      falls through to the generic case. */
  predicate IsPatternForm(v: Value) {
    v.Expr? && v.head.Sym? &&
    var n := v.head.name;
    (n == BlankName && |v.parts| <= 1) ||
    ((n == BlankSequenceName || n == BlankNullSequenceName) && |v.parts| <= 1) ||
    (n == PatternName && |v.parts| == 2 && v.parts[0].Sym?)
  }

  function OptionalPart(ps: seq<Value>): Option<Value> {
    if |ps| == 0 then None else Some(ps[0])
  }

  /** PatternMatching.CompilePattern.  An atom is a literal; the pattern forms
      get their classes; any other expression compiles head and parts, and
      collapses back to one literal of the whole expression when they are all
      literals. */
  function Compile(v: Value): (r: Pattern)
    ensures !r.Condition?
    ensures r.Literal? ==> r.lit == v
    ensures !v.Expr? ==> r == Literal(v)
    decreases v, 1
  {
    if !v.Expr? then Literal(v)
    else if IsPatternForm(v) then CompileForm(v)
    else
      var hp := Compile(v.head);
      var pps := seq(|v.parts|, i requires 0 <= i < |v.parts| => Compile(v.parts[i]));
      if hp.Literal? && forall i :: 0 <= i < |pps| ==> pps[i].Literal? then Literal(v)
      else ExprPat(hp, pps)
  }

  function CompileForm(v: Value): (r: Pattern)
    requires IsPatternForm(v)
    ensures !r.Condition? && !r.Literal?
    decreases v, 0
  {
    var n := v.head.name;
    if n == BlankName then Blank(OptionalPart(v.parts))
    else if n == BlankSequenceName || n == BlankNullSequenceName then
      BlankSeq(n == BlankNullSequenceName, OptionalPart(v.parts))
    else Named(v.parts[0].name, Compile(v.parts[1]))
  }

  /** The value holds a pattern form somewhere in its head or parts. */
  predicate HasPatternForm(v: Value) {
    IsPatternForm(v) ||
    (v.Expr? && (HasPatternForm(v.head) || exists i :: 0 <= i < |v.parts| && HasPatternForm(v.parts[i])))
  }

  /** A value compiles to a literal exactly when it holds no pattern form,
      and then the literal is the value itself. */
  lemma {:induction false} CompileLiteralIffNoPatternForm(v: Value)
    ensures Compile(v).Literal? <==> !HasPatternForm(v)
    ensures !HasPatternForm(v) ==> Compile(v) == Literal(v)
  {
    if v.Expr? && !IsPatternForm(v) {
      CompileLiteralIffNoPatternForm(v.head);
      forall i | 0 <= i < |v.parts|
        ensures Compile(v.parts[i]).Literal? <==> !HasPatternForm(v.parts[i])
      {
        CompileLiteralIffNoPatternForm(v.parts[i]);
      }
      var pps := seq(|v.parts|, i requires 0 <= i < |v.parts| => Compile(v.parts[i]));
      assert Compile(v) == (if Compile(v.head).Literal? && forall i :: 0 <= i < |pps| ==> pps[i].Literal?
        then Literal(v) else ExprPat(Compile(v.head), pps));
      if HasPatternForm(v) && !HasPatternForm(v.head) {
        var i :| 0 <= i < |v.parts| && HasPatternForm(v.parts[i]);
        assert !pps[i].Literal?;
      }
    }
  }

  /** The pattern forms compile to their own classes. */
  lemma CompilePatternForms(h: Value, name: string, p: Value)
    ensures Compile(Expr(Sym(BlankName), [])) == Blank(None)
    ensures Compile(Expr(Sym(BlankName), [h])) == Blank(Some(h))
    ensures Compile(Expr(Sym(BlankSequenceName), [h])) == BlankSeq(false, Some(h))
    ensures Compile(Expr(Sym(BlankNullSequenceName), [])) == BlankSeq(true, None)
    ensures Compile(Expr(Sym(PatternName), [Sym(name), p])) == Named(name, Compile(p))
  {
  }
}
