/** The value tree of the kernel: symbols, strings, numbers and expressions
    `head[parts...]`, with the C# `Equals` each class defines, the `Head` and
    `AtomHead` properties, and the quoted form `StringValue.ToString`.
 */
module Values {
  import opened Numbers

  /** A value.  A symbol is known by its full name (`System`Plus`), and two
      symbol values are the same symbol exactly when their names agree. */
  datatype Value =
    | Sym(name: string)
    | Str(text: string)
    | Num(n: Number)
    | Expr(head: Value, parts: seq<Value>)

  const SystemContext: string := "System`"

  /** The value of a symbol of the System` context. */
  function System(short: string): Value {
    Sym(SystemContext + short)
  }

  /** AtomicValue.IsAtomic / ExpressionValue.IsAtomic. */
  predicate IsAtomic(v: Value) {
    !v.Expr?
  }

  /** AtomHead: an atom is its own atom head; an expression takes its
      head's. */
  function AtomHead(v: Value): (r: Value)
    ensures IsAtomic(r)
  {
    if v.Expr? then AtomHead(v.head) else v
  }

  /** The `Head` property of each class. */
  function HeadOf(v: Value): (r: Value)
    ensures v.Expr? ==> r == v.head
    ensures !v.Expr? ==> r.Sym?
  {
    match v
    case Sym(_) => System("Symbol")
    case Str(_) => System("String")
    case Num(n) =>
      (match TypeOf(n)
       case Integer => System("Integer")
       case Rational => System("Rational")
       case Complex => System("Complex"))
    case Expr(h, _) => h
  }

  /** The `Equals` of each value class: symbols by identity, strings by
      text, numbers after normalisation, expressions by part count, parts
      pairwise and head. */
  function ValueEq(a: Value, b: Value): bool
    decreases a
  {
    match a
    case Sym(x) => b.Sym? && b.name == x
    case Str(s) => b.Str? && b.text == s
    case Num(n) => b.Num? && NumberEq(n, b.n)
    case Expr(h, ps) =>
      b.Expr? && |ps| == |b.parts| &&
      (forall i :: 0 <= i < |ps| ==> ValueEq(ps[i], b.parts[i])) &&
      ValueEq(h, b.head)
  }

  /** The value with every number replaced by its normal form. */
  function Canon(v: Value): (r: Value)
    ensures r.Expr? <==> v.Expr?
    ensures v.Expr? ==> |r.parts| == |v.parts|
  {
    match v
    case Num(n) => Num(Normalize(n))
    case Expr(h, ps) => Expr(Canon(h), CanonAll(ps))
    case _ => v
  }

  function CanonAll(ps: seq<Value>): (r: seq<Value>)
    ensures |r| == |ps|
    ensures forall i :: 0 <= i < |ps| ==> r[i] == Canon(ps[i])
  {
    if ps == [] then [] else [Canon(ps[0])] + CanonAll(ps[1..])
  }

  /** Two values are `Equals` exactly when their canonical forms are
      identical.  In particular `Equals` agrees with the reference shortcut
      (reflexivity) and is an equivalence relation. */
  lemma {:induction false} ValueEqIsCanonEquality(a: Value, b: Value)
    ensures ValueEq(a, b) <==> Canon(a) == Canon(b)
    decreases a
  {
    match a
    case Sym(_) =>
    case Str(_) =>
    case Num(n) =>
      if b.Num? {
        NumberEqIsNormalFormEquality(n, b.n);
      }
    case Expr(h, ps) =>
      if b.Expr? {
        ValueEqIsCanonEquality(h, b.head);
        forall i | 0 <= i < |ps| && i < |b.parts|
          ensures ValueEq(ps[i], b.parts[i]) <==> Canon(ps[i]) == Canon(b.parts[i])
        {
          ValueEqIsCanonEquality(ps[i], b.parts[i]);
        }
        if Canon(a) == Canon(b) {
          assert |ps| == |b.parts|;
          forall i | 0 <= i < |ps|
            ensures Canon(ps[i]) == Canon(b.parts[i])
          {
            assert CanonAll(ps)[i] == CanonAll(b.parts)[i];
          }
        }
        if ValueEq(a, b) {
          assert CanonAll(ps) == CanonAll(b.parts);
        }
      }
  }

  lemma ValueEqIsEquivalence(a: Value, b: Value, c: Value)
    ensures ValueEq(a, a)
    ensures ValueEq(a, b) ==> ValueEq(b, a)
    ensures ValueEq(a, b) && ValueEq(b, c) ==> ValueEq(a, c)
  {
    ValueEqIsCanonEquality(a, a);
    ValueEqIsCanonEquality(a, b);
    ValueEqIsCanonEquality(b, a);
    ValueEqIsCanonEquality(b, c);
    ValueEqIsCanonEquality(a, c);
  }

  /** Expression equality is structural: same part count, parts pairwise
      equal, and equal heads. */
  lemma ExpressionEquality(h: Value, ps: seq<Value>, g: Value, qs: seq<Value>)
    ensures ValueEq(Expr(h, ps), Expr(g, qs)) <==>
      |ps| == |qs| && ValueEq(h, g) &&
      forall i :: 0 <= i < |ps| ==> ValueEq(ps[i], qs[i])
  {
  }

  /** A string value equals exactly the string values with the same text. */
  lemma StringEquality(s: string, b: Value)
    ensures ValueEq(Str(s), b) <==> b == Str(s)
  {
  }

  /** A number never equals a non-number. */
  lemma NumberNeverEqualsNonNumber(n: Number, b: Value)
    requires !b.Num?
    ensures !ValueEq(Num(n), b) && !ValueEq(b, Num(n))
  {
  }

  /** The atom head is an atom, is the value itself on atoms, is reached
      through the head of an expression, and so is idempotent. */
  lemma AtomHeadIsLeftmostAtom(v: Value, ps: seq<Value>)
    ensures IsAtomic(AtomHead(v))
    ensures IsAtomic(v) ==> AtomHead(v) == v
    ensures AtomHead(Expr(v, ps)) == AtomHead(v)
    ensures AtomHead(AtomHead(v)) == AtomHead(v)
  {
  }

  // ---------------------------------------------------------------------
  // StringValue.ToString

  /** `string.Replace` of one character by a string. */
  function ReplaceChar(s: string, c: char, with: string): (r: string)
    ensures c !in with ==> c !in r
    ensures forall x :: x in r ==> x in s || x in with
  {
    if s == [] then []
    else (if s[0] == c then with else [s[0]]) + ReplaceChar(s[1..], c, with)
  }

  /** The escape applied to one character by the two replacements. */
  function EscapeChar(c: char): string {
    if c == '\\' then "\\\\" else if c == '"' then "\\\"" else [c]
  }

  /** Character-by-character escaping, the reference for `Escape`. */
  function EscapeEach(s: string): string {
    if s == [] then [] else EscapeChar(s[0]) + EscapeEach(s[1..])
  }

  /** StringValue.ToString: the text with backslashes doubled first and
      quotes escaped second, wrapped in double quotes. */
  function Quote(s: string): (r: string)
    ensures |r| >= 2 && r[0] == '"' && r[|r| - 1] == '"'
    ensures r == "\"" + EscapeEach(s) + "\""
  {
    EscapeThenQuote(s);
    "\"" + ReplaceChar(ReplaceChar(s, '\\', "\\\\"), '"', "\\\"") + "\""
  }

  lemma {:induction false} ReplaceAppend(a: string, b: string, c: char, with: string)
    ensures ReplaceChar(a + b, c, with) == ReplaceChar(a, c, with) + ReplaceChar(b, c, with)
  {
    if a != [] {
      assert (a + b)[1..] == a[1..] + b;
      ReplaceAppend(a[1..], b, c, with);
    } else {
      assert a + b == b;
    }
  }

  /** Doubling backslashes and then escaping quotes is the same as escaping
      each character on its own: the second replacement never touches a
      backslash the first one introduced. */
  lemma {:induction false} EscapeThenQuote(s: string)
    ensures ReplaceChar(ReplaceChar(s, '\\', "\\\\"), '"', "\\\"") == EscapeEach(s)
  {
    if s != [] {
      EscapeThenQuote(s[1..]);
      var first := if s[0] == '\\' then "\\\\" else [s[0]];
      assert ReplaceChar(s, '\\', "\\\\") == first + ReplaceChar(s[1..], '\\', "\\\\");
      ReplaceAppend(first, ReplaceChar(s[1..], '\\', "\\\\"), '"', "\\\"");
      if s[0] == '\\' {
        assert ReplaceChar(first, '"', "\\\"") == "\\\\" by {
          assert first == ['\\'] + ['\\'];
          ReplaceAppend(['\\'], ['\\'], '"', "\\\"");
        }
      } else if s[0] == '"' {
        assert ReplaceChar(first, '"', "\\\"") == "\\\"";
      } else {
        assert ReplaceChar(first, '"', "\\\"") == [s[0]];
      }
    }
  }
}
