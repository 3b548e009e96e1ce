/** ExprBuildListener: the value stack the parse-tree walk builds
    expressions on, and the decoders that turn token text into values —
    blank forms, string literals, `#` / `%` forms, integers — together with
    the comparison-chain, division and negation builders.
 */
module Listener {
  import opened Wrappers
  import opened Numbers
  import opened Values
  import opened Engines
  import Builtins

  /** The value stack, bottom first. */
  type Stack = seq<Value>

  /** `Push`: the value goes on top. */
  function Push(s: Stack, v: Value): (r: Stack)
    ensures |r| == |s| + 1 && r[|s|] == v && r[..|s|] == s
  {
    s + [v]
  }

  /** What `Pop(count)` leaves behind and what it returns. */
  datatype Popped = Popped(rest: Stack, items: seq<Value>)

  /** `Pop(count)`: the top `count` items in the order they were pushed,
      removed from the stack.  A count larger than the stack (a negative
      start for `GetRange`) or a negative count is an
      `ArgumentOutOfRangeException`. */
  function PopMany(s: Stack, count: int): (r: Result<Popped>)
    ensures r.Ok? <==> 0 <= count <= |s|
    ensures r.Err? ==> r.error == ArgumentOutOfRange
    ensures r.Ok? ==> |r.value.items| == count && r.value.rest + r.value.items == s
  {
    if count < 0 || count > |s| then Err(ArgumentOutOfRange)
    else Ok(Popped(s[..|s| - count], s[|s| - count..]))
  }

  /** `Pop()`: the top item, removed; the list indexer throws on an empty
      stack. */
  function PopOne(s: Stack): (r: Result<(Stack, Value)>)
    ensures r.Ok? <==> |s| > 0
    ensures r.Err? ==> r.error == ArgumentOutOfRange
    ensures r.Ok? ==> r.value.0 + [r.value.1] == s
  {
    if |s| == 0 then Err(ArgumentOutOfRange)
    else Ok((s[..|s| - 1], s[|s| - 1]))
  }

  /** `GetValue`: `Single()` on the stack. */
  function GetValue(s: Stack): (r: Result<Value>)
    ensures r.Ok? <==> |s| == 1
    ensures r.Ok? ==> s == [r.value]
    ensures r.Err? ==> r.error == InvalidOperation
  {
    if |s| == 1 then Ok(s[0]) else Err(InvalidOperation)
  }

  /** Popping one item undoes pushing it. */
  lemma PushThenPop(s: Stack, v: Value)
    ensures PopOne(Push(s, v)) == Ok((s, v))
  {
  }

  /** Popping `|vs|` items after pushing `vs` one by one gives `vs` back in
      push order and restores the stack. */
  lemma PopAfterPushes(s: Stack, vs: seq<Value>)
    ensures PopMany(s + vs, |vs|) == Ok(Popped(s, vs))
  {
    assert (s + vs)[..|s|] == s;
    assert (s + vs)[|s|..] == vs;
  }

  /** The stack after a whole parse of one expression holds exactly it. */
  lemma GetValueOfPushed(v: Value)
    ensures GetValue(Push([], v)) == Ok(v)
  {
  }

  /** `Construct(sym, count)`: the top `count` items become the parts of a
      new expression headed by the symbol. */
  function Construct(s: Stack, name: string, count: int): (r: Result<Stack>)
    ensures r.Ok? <==> 0 <= count <= |s|
    ensures r.Err? ==> r.error == ArgumentOutOfRange
    ensures r.Ok? ==> |r.value| == |s| - count + 1
  {
    var p :- PopMany(s, count);
    Ok(Push(p.rest, Expr(Sym(name), p.items)))
  }

  /** Constructing over `|vs|` freshly pushed values wraps them, in order,
      under the head and leaves the rest of the stack alone. */
  lemma ConstructAfterPushes(s: Stack, name: string, vs: seq<Value>)
    ensures Construct(s + vs, name, |vs|) == Ok(s + [Expr(Sym(name), vs)])
  {
    PopAfterPushes(s, vs);
  }

  /** ExitBracketedFunctionApplication: the arguments are popped first,
      then the head below them. */
  function FunctionApplication(s: Stack, argCount: int): (r: Result<Stack>)
    ensures r.Ok? <==> 0 <= argCount < |s|
    ensures r.Err? ==> r.error == ArgumentOutOfRange
  {
    var args :- PopMany(s, argCount);
    var head :- PopMany(args.rest, 1);
    Ok(Push(head.rest, Expr(head.items[0], args.items)))
  }

  /** `h[a1, ..., an]` after pushing `h` and then the arguments. */
  lemma FunctionApplicationAfterPushes(s: Stack, h: Value, args: seq<Value>)
    ensures FunctionApplication(s + [h] + args, |args|) == Ok(s + [Expr(h, args)])
  {
    PopAfterPushes(s + [h], args);
    PopAfterPushes(s, [h]);
  }

  const MinusOne: Value := Num(Ex(Int(-1)))
  const TimesHead: Value := System("Times")
  const PowerHead: Value := System("Power")

  /** ExitDivisionRule: `a / b` is `Times[a, Power[b, -1]]`. */
  function Division(s: Stack): (r: Result<Stack>)
    ensures r.Ok? <==> |s| >= 2
    ensures r.Err? ==> r.error == ArgumentOutOfRange
  {
    var args :- PopMany(s, 2);
    Ok(Push(args.rest, Expr(TimesHead, [args.items[0], Expr(PowerHead, [args.items[1], MinusOne])])))
  }

  /** The dividend stays first and the divisor is raised to -1. */
  lemma DivisionAfterPushes(s: Stack, a: Value, b: Value)
    ensures Division(s + [a, b]) == Ok(s + [Expr(TimesHead, [a, Expr(PowerHead, [b, MinusOne])])])
  {
    PopAfterPushes(s, [a, b]);
  }

  /** ExitNegateRule (and the `-` prefix): `-v` is `Times[-1, v]`. */
  function Negate(s: Stack): (r: Result<Stack>)
    ensures r.Ok? <==> |s| >= 1
    ensures r.Err? ==> r.error == ArgumentOutOfRange
  {
    var (rest, v) :- PopOne(s);
    Ok(Push(rest, Expr(TimesHead, [MinusOne, v])))
  }

  /** Negation replaces the top value by `Times[-1, v]`. */
  lemma NegateAfterPush(s: Stack, v: Value)
    ensures Negate(s + [v]) == Ok(s + [Expr(TimesHead, [MinusOne, v])])
  {
    PushThenPop(s, v);
  }

  /** A negated number literal evaluates, through the Times builtin, to the
      negated number. */
  lemma NegatedNumberEvaluates(build: Build, s: Stack, n: Number)
    ensures Negate(s + [Num(n)]).Ok?
    ensures Builtins.Times(build, Negate(s + [Num(n)]).value[|s|]) == Ok(Some((Num(Neg(n)), true)))
  {
    NegateAfterPush(s, Num(n));
    Builtins.TimesMinusOne(build, n);
  }

  /** ExitPrefixPlusMinus: `-` negates, `+` does nothing, `±` and `∓` wrap
      the operand; any other token is ignored. */
  function PrefixPlusMinus(s: Stack, op: string): (r: Result<Stack>)
    ensures op == "+" ==> r == Ok(s)
    ensures op == "-" ==> r == Negate(s)
    ensures (op == "\U{00B1}" || op == "\U{2213}") ==> (r.Ok? <==> |s| >= 1)
  {
    if op == "-" then Negate(s)
    else if op == "\U{00B1}" then Construct(s, SystemContext + "PlusMinus", 1)
    else if op == "\U{2213}" then Construct(s, SystemContext + "MinusPlus", 1)
    else Ok(s)
  }

  /** GetSymbolForOp: the system symbol an infix operator token stands for;
      an unknown token gives `null` (after a debug assertion). */
  function OpSymbol(op: string): (r: Option<string>)
    ensures r.Some? ==> |r.value| > |SystemContext| && r.value[..|SystemContext|] == SystemContext
  {
    var short :=
      if op == "/@" then "Map"
      else if op == "//@" then "MapAll"
      else if op == "@@" then "Apply"
      else if op == "\U{F3C8}" then "Conjugate"
      else if op == "\U{F3C7}" then "Transpose"
      else if op == "\U{F3C9}" || op == "\U{F3CE}" then "ConjugateTranspose"
      else if op == "==" then "Equal"
      else if op == "!=" then "Unequal"
      else if op == ">" then "Greater"
      else if op == "<" then "Less"
      else if op == ">=" then "GreaterEqual"
      else if op == "<=" then "LessEqual"
      else if op == "===" then "SameQ"
      else if op == "=!=" then "UnsameQ"
      else if op == "+=" then "AddTo"
      else if op == "-=" then "SubtractFrom"
      else if op == "*=" then "TimesBy"
      else if op == "/=" then "DivideBy"
      else if op == "=" then "Set"
      else if op == ":=" then "SetDelayed"
      else if op == "^=" then "UpSet"
      else if op == "^:=" then "UpSetDelayed"
      else if op == ">>" then "Put"
      else if op == ">>>" then "PutAppend"
      else "";
    if short == "" then None else Some(SystemContext + short)
  }

  /** The six comparison operators name six different symbols. */
  lemma ComparisonOperators()
    ensures OpSymbol("==") == Some(SystemContext + "Equal")
    ensures OpSymbol("!=") == Some(SystemContext + "Unequal")
    ensures OpSymbol(">") == Some(SystemContext + "Greater")
    ensures OpSymbol("<") == Some(SystemContext + "Less")
    ensures OpSymbol(">=") == Some(SystemContext + "GreaterEqual")
    ensures OpSymbol("<=") == Some(SystemContext + "LessEqual")
  {
  }

  /** `=` and `:=` name the two assignment symbols. */
  lemma AssignmentOperators()
    ensures OpSymbol("=") == Some(SetName) && OpSymbol(":=") == Some(SetDelayedName)
  {
  }

  /** Only the listed tokens have a symbol. */
  lemma UnknownOperator(op: string)
    requires op !in {"/@", "//@", "@@", "\U{F3C8}", "\U{F3C7}", "\U{F3C9}", "\U{F3CE}", "==", "!=", ">", "<",
      ">=", "<=", "===", "=!=", "+=", "-=", "*=", "/=", "=", ":=", "^=", "^:=", ">>", ">>>"}
    ensures OpSymbol(op).None?
  {
  }

  /** `p0, s0, p1, s1, ..., p(n-1)`: the parts of an `Inequality`. */
  function Interleave(vals: seq<Value>, names: seq<string>): (l: seq<Value>)
    requires |vals| == |names| + 1
    decreases names
  {
    if names == [] then [vals[0]]
    else [vals[0], Sym(names[0])] + Interleave(vals[1..], names[1..])
  }

  /** The layout the source's loop fills in: length `2n - 1`, operands at
      even positions and operator symbols at odd ones. */
  lemma {:induction false} InterleaveLayout(vals: seq<Value>, names: seq<string>)
    requires |vals| == |names| + 1
    ensures |Interleave(vals, names)| == 2 * |vals| - 1
    ensures forall i :: 0 <= i < |vals| ==> Interleave(vals, names)[2 * i] == vals[i]
    ensures forall i :: 0 <= i < |names| ==> Interleave(vals, names)[2 * i + 1] == Sym(names[i])
    decreases names
  {
    if names != [] {
      InterleaveLayout(vals[1..], names[1..]);
      var l := Interleave(vals, names);
      var tail := Interleave(vals[1..], names[1..]);
      assert l == [vals[0], Sym(names[0])] + tail;
      forall i | 0 <= i < |vals|
        ensures l[2 * i] == vals[i]
      {
        if i > 0 {
          assert l[2 * i] == tail[2 * (i - 1)];
        }
      }
      forall i | 0 <= i < |names|
        ensures l[2 * i + 1] == Sym(names[i])
      {
        if i > 0 {
          assert l[2 * i + 1] == tail[2 * (i - 1) + 1];
        }
      }
    }
  }

  /** Every operator token of a chain has a symbol. */
  predicate AllKnown(ops: seq<string>) {
    forall k :: 0 <= k < |ops| ==> OpSymbol(ops[k]).Some?
  }

  /** The operator symbols of a chain of known operators. */
  function OpNames(ops: seq<string>): (names: seq<string>)
    requires AllKnown(ops)
    ensures |names| == |ops|
    ensures forall k :: 0 <= k < |ops| ==> OpSymbol(ops[k]) == Some(names[k])
  {
    seq(|ops|, k requires 0 <= k < |ops| => OpSymbol(ops[k]).value)
  }

  /** All operators of the chain name the same symbol. */
  predicate SameOperator(ops: seq<string>)
    requires ops != []
  {
    forall k :: 0 <= k < |ops| ==> OpSymbol(ops[k]) == OpSymbol(ops[0])
  }

  /** ExitComparison over `|ops| + 1` operands already on the stack: a
      single operand is left as it is; one repeated operator builds
      `op[p0, ..., pn]`; a mix builds `Inequality[p0, op0, p1, ...]`.  A
      `null` operator symbol fails when its value is taken. */
  function Comparison(s: Stack, ops: seq<string>): (r: Result<Stack>)
    ensures ops == [] ==> r == Ok(s)
    ensures ops != [] && !AllKnown(ops) ==> r.Err?
    ensures ops != [] && |s| < |ops| + 1 ==> r.Err?
  {
    if ops == [] then Ok(s)
    else if SameOperator(ops) then
      if OpSymbol(ops[0]).None? then Err(NullReference)
      else Construct(s, OpSymbol(ops[0]).value, |ops| + 1)
    else
      var p :- PopMany(s, |ops| + 1);
      if !AllKnown(ops) then Err(NullReference)
      else Ok(Push(p.rest, Expr(System("Inequality"), Interleave(p.items, OpNames(ops)))))
  }

  /** `a < b < c`: one operator repeated gives `Less[a, b, c]`. */
  lemma ComparisonSameOperator(s: Stack, vals: seq<Value>, ops: seq<string>)
    requires ops != [] && |vals| == |ops| + 1
    requires AllKnown(ops) && SameOperator(ops)
    ensures Comparison(s + vals, ops) == Ok(s + [Expr(Sym(OpSymbol(ops[0]).value), vals)])
  {
    ConstructAfterPushes(s, OpSymbol(ops[0]).value, vals);
  }

  /** `a < b <= c`: mixed operators give an `Inequality` alternating the
      operands with the operator symbols, of length `2n - 1`. */
  lemma ComparisonMixed(s: Stack, vals: seq<Value>, ops: seq<string>)
    requires |vals| == |ops| + 1 && ops != []
    requires AllKnown(ops) && !SameOperator(ops)
    ensures Comparison(s + vals, ops).Ok?
    ensures var r := Comparison(s + vals, ops).value;
      |r| == |s| + 1 && r[..|s|] == s && r[|s|].Expr? && r[|s|].head == System("Inequality") &&
      |r[|s|].parts| == 2 * |vals| - 1 &&
      (forall i :: 0 <= i < |vals| ==> r[|s|].parts[2 * i] == vals[i]) &&
      (forall i :: 0 <= i < |ops| ==> r[|s|].parts[2 * i + 1] == Sym(OpSymbol(ops[i]).value))
  {
    PopAfterPushes(s, vals);
    InterleaveLayout(vals, OpNames(ops));
  }

  // ----- integers -----

  /** An ASCII decimal digit, which is all `int.Parse` accepts. */
  predicate AllDigits(ds: string) {
    forall k :: 0 <= k < |ds| ==> IsDigit(ds[k])
  }

  function DigitValue(c: char): (d: int)
    requires IsDigit(c)
    ensures 0 <= d < 10
  {
    c as int - '0' as int
  }

  /** The value of a string of decimal digits, most significant first. */
  function DigitsValue(ds: string): (n: nat)
    requires AllDigits(ds)
  {
    if ds == [] then 0
    else DigitsValue(ds[..|ds| - 1]) * 10 + DigitValue(ds[|ds| - 1])
  }

  const Int32Min: int := -0x8000_0000
  const Int32Max: int := 0x7FFF_FFFF

  /** `int.Parse` with the default style: an optional sign, then at least
      one decimal digit.  Anything else is a `FormatException`; a value
      outside the 32-bit range is an `OverflowException`. */
  function ParseInt32(text: string): (r: Result<int>)
    ensures r.Ok? ==> Int32Min <= r.value <= Int32Max
    ensures r.Err? ==> r.error == FormatError || r.error == Overflow
    ensures text == [] ==> r == Err(FormatError)
  {
    var signed := |text| > 0 && (text[0] == '-' || text[0] == '+');
    var digits := if signed then text[1..] else text;
    if digits == [] || !AllDigits(digits) then Err(FormatError)
    else
      var m: int := DigitsValue(digits);
      var v := if signed && text[0] == '-' then -m else m;
      if v < Int32Min || v > Int32Max then Err(Overflow) else Ok(v)
  }

  /** CreateNumber: a text with a `.` is a Real, which this model leaves
      out; anything else is an Integer read by `int.Parse`. */
  function CreateNumber(text: string): (r: Result<Value>)
    ensures '.' in text ==> r == Err(NotModelled)
    ensures r.Ok? ==> r.value.Num? && r.value.n.Ex? && r.value.n.e.Int?
    ensures r.Ok? ==> Int32Min <= r.value.n.e.v <= Int32Max
  {
    if '.' in text then Err(NotModelled)
    else
      var v :- ParseInt32(text);
      Ok(Num(Ex(Int(v))))
  }

  function DigitChar(d: nat): (c: char)
    requires d < 10
    ensures IsDigit(c) && DigitValue(c) == d
  {
    ('0' as int + d) as char
  }

  /** Decimal text of a natural number, without leading zeros. */
  function Show(n: nat): (ds: string)
    ensures ds != [] && AllDigits(ds)
  {
    if n < 10 then [DigitChar(n)] else Show(n / 10) + [DigitChar(n % 10)]
  }

  /** Decimal text of an integer, with a leading `-` when negative. */
  function ShowInt(n: int): string {
    if n < 0 then "-" + Show(-n) else Show(n)
  }

  /** Reading the digits back gives the number. */
  lemma {:induction false} ShowReadsBack(n: nat)
    ensures DigitsValue(Show(n)) == n
  {
    if n >= 10 {
      ShowReadsBack(n / 10);
      var ds := Show(n);
      assert ds[..|ds| - 1] == Show(n / 10);
    }
  }

  /** Parsing the decimal text of an integer gives it back inside the 32-bit
      range and overflows outside it. */
  lemma ParseShowInt(n: int)
    ensures Int32Min <= n <= Int32Max ==> ParseInt32(ShowInt(n)) == Ok(n)
    ensures (n < Int32Min || n > Int32Max) ==> ParseInt32(ShowInt(n)) == Err(Overflow)
  {
    var t := ShowInt(n);
    if n < 0 {
      var ds := Show(-n);
      ShowReadsBack(-n);
      assert t[0] == '-' && t[1..] == ds;
      assert ParseInt32(t) == (if n < Int32Min then Err(Overflow) else Ok(n));
    } else {
      ShowReadsBack(n);
      assert IsDigit(t[0]);
      assert ParseInt32(t) == (if n > Int32Max then Err(Overflow) else Ok(n));
    }
  }

  /** CreateNumber round-trips the decimal text of a 32-bit integer. */
  lemma CreateNumberOfShowInt(n: int)
    requires Int32Min <= n <= Int32Max
    ensures CreateNumber(ShowInt(n)) == Ok(Num(Ex(Int(n))))
  {
    ParseShowInt(n);
    if n < 0 {
      assert '.' !in Show(-n);
      assert '.' !in ShowInt(n);
    }
  }

  // ----- # and % forms -----

  const OneValue: Value := Num(Ex(One))

  /** ExitAtomOut: `%` is `Out[]`, a run of `%` is `Out[-length]`, and `%n`
      is `Out[n]`. */
  function OutForm(text: string): (r: Result<Value>)
    ensures r.Ok? ==> r.value.Expr? && r.value.head == System("Out")
    ensures text == [] ==> r == Err(IndexOutOfRange)
  {
    if |text| == 0 then Err(IndexOutOfRange)
    else if |text| == 1 then Ok(Expr(System("Out"), []))
    else if text[1] == '%' then Ok(Expr(System("Out"), [Num(Ex(Int(-|text|)))]))
    else
      var n :- CreateNumber(text[1..]);
      Ok(Expr(System("Out"), [n]))
  }

  /** ExitAtomSlot: `#` is `Slot[1]`; `##` and `##n` are `SlotSequence[1]`
      and `SlotSequence[n]`; `#n` is `Slot[n]` and `#name` is
      `Slot["name"]`. */
  function SlotForm(text: string): (r: Result<Value>)
    ensures r.Ok? ==> r.value.Expr? && |r.value.parts| == 1
    ensures r.Ok? ==> r.value.head == System("Slot") || r.value.head == System("SlotSequence")
    ensures text == [] ==> r == Err(IndexOutOfRange)
  {
    if |text| == 0 then Err(IndexOutOfRange)
    else if |text| == 1 then Ok(Expr(System("Slot"), [OneValue]))
    else if text[1] == '#' then
      var n :- if |text| == 2 then Ok(OneValue) else CreateNumber(text[2..]);
      Ok(Expr(System("SlotSequence"), [n]))
    else
      var arg :- if IsDigit(text[1]) then CreateNumber(text[1..]) else Ok(Str(text[1..]));
      Ok(Expr(System("Slot"), [arg]))
  }

  /** `k` copies of a character. */
  function Repeat(c: char, k: nat): (s: string)
    ensures |s| == k && forall i :: 0 <= i < k ==> s[i] == c
  {
    seq(k, _ => c)
  }

  /** The `%` forms: one `%` is `Out[]`, `k >= 2` of them are `Out[-k]`,
      and `%n` is `Out[n]`. */
  lemma OutForms(k: nat, n: nat)
    requires n <= Int32Max
    ensures OutForm("%") == Ok(Expr(System("Out"), []))
    ensures k >= 2 ==> OutForm(Repeat('%', k)) == Ok(Expr(System("Out"), [Num(Ex(Int(0 - k)))]))
    ensures OutForm("%" + Show(n)) == Ok(Expr(System("Out"), [Num(Ex(Int(n)))]))
  {
    CreateNumberOfShowInt(n);
    var t := "%" + Show(n);
    assert t[1..] == Show(n) == ShowInt(n);
  }

  /** The `#` forms: `#` and `##` stand for slot 1, `#n` and `##n` for slot
      `n`, and `#name` for the named slot. */
  lemma SlotForms(n: nat, name: string)
    requires n <= Int32Max
    requires name != [] && !IsDigit(name[0]) && name[0] != '#'
    ensures SlotForm("#") == Ok(Expr(System("Slot"), [Num(Ex(Int(1)))]))
    ensures SlotForm("##") == Ok(Expr(System("SlotSequence"), [Num(Ex(Int(1)))]))
    ensures SlotForm("#" + Show(n)) == Ok(Expr(System("Slot"), [Num(Ex(Int(n)))]))
    ensures SlotForm("##" + Show(n)) == Ok(Expr(System("SlotSequence"), [Num(Ex(Int(n)))]))
    ensures SlotForm("#" + name) == Ok(Expr(System("Slot"), [Str(name)]))
  {
    NumberedSlot(n);
    NumberedSlotSequence(n);
    var t3 := "#" + name;
    assert t3[1..] == name;
  }

  /** `#n` is slot n. */
  lemma NumberedSlot(n: nat)
    requires n <= Int32Max
    ensures SlotForm("#" + Show(n)) == Ok(Expr(System("Slot"), [Num(Ex(Int(n)))]))
  {
    CreateNumberOfShowInt(n);
    var t := "#" + Show(n);
    assert t[1..] == Show(n) == ShowInt(n);
    assert IsDigit(t[1]);
  }

  /** `##n` is the slot sequence from n. */
  lemma NumberedSlotSequence(n: nat)
    requires n <= Int32Max
    ensures SlotForm("##" + Show(n)) == Ok(Expr(System("SlotSequence"), [Num(Ex(Int(n)))]))
  {
    CreateNumberOfShowInt(n);
    var t2 := "##" + Show(n);
    assert t2[2..] == Show(n);
  }

  // ----- string literals -----

  const FormFeed: char := '\U{000C}'
  const Backspace: char := '\U{0008}'

  /** The escape loop of CreateString: `\\`, `\ ` and `\"` give the
      character after the backslash, `\f \b \t \n \r` give control
      characters, and any other backslash is kept as it is (the character
      after it is then read normally).  A backslash at the very end reads
      past the data. */
  function Unescape(data: string): (r: Result<string>)
    ensures r.Err? ==> r.error == IndexOutOfRange
    ensures '\\' !in data ==> r == Ok(data)
    ensures r.Ok? ==> |r.value| <= |data|
  {
    if data == [] then Ok([])
    else if data[0] != '\\' then
      var rest :- Unescape(data[1..]);
      assert data == [data[0]] + data[1..];
      Ok([data[0]] + rest)
    else if |data| == 1 then Err(IndexOutOfRange)
    else
      var c := data[1];
      var (out, skip) :=
        if c == '\\' || c == ' ' || c == '"' then (c, 2)
        else if c == 'f' then (FormFeed, 2)
        else if c == 'b' then (Backspace, 2)
        else if c == 't' then ('\t', 2)
        else if c == 'n' then ('\n', 2)
        else if c == 'r' then ('\r', 2)
        else ('\\', 1);
      var rest :- Unescape(data[skip..]);
      Ok([out] + rest)
  }

  /** CreateString: drop the first and last characters (the quotes, which
      are not checked) and unescape the rest.  Fewer than two characters
      make `Substring` throw. */
  function CreateString(text: string): (r: Result<Value>)
    ensures |text| < 2 ==> r == Err(ArgumentOutOfRange)
    ensures r.Ok? ==> r.value.Str?
  {
    if |text| < 2 then Err(ArgumentOutOfRange)
    else
      var s :- Unescape(text[1..|text| - 1]);
      Ok(Str(s))
  }

  /** Unescaping undoes the backslash-and-quote escaping of `ToString`. */
  lemma {:induction false} UnescapeEscaped(s: string)
    ensures Unescape(EscapeEach(s)) == Ok(s)
  {
    if s != [] {
      UnescapeEscaped(s[1..]);
      var d := EscapeEach(s);
      assert d == EscapeChar(s[0]) + EscapeEach(s[1..]);
      if s[0] == '\\' || s[0] == '"' {
        assert d[0] == '\\' && d[1] == s[0];
        assert d[2..] == EscapeEach(s[1..]);
      } else {
        assert d[0] == s[0];
        assert d[1..] == EscapeEach(s[1..]);
      }
      assert [s[0]] + s[1..] == s;
    }
  }

  /** Reading back the printed form of a string gives the string:
      CreateString inverts StringValue.ToString. */
  lemma CreateStringOfQuote(s: string)
    ensures CreateString(Quote(s)) == Ok(Str(s))
  {
    var q := Quote(s);
    assert q[1..|q| - 1] == EscapeEach(s);
    UnescapeEscaped(s);
  }

  /** Prepends a character to an unescaped result. */
  function Cons(c: char, r: Result<string>): Result<string> {
    if r.Ok? then Ok([c] + r.value) else r
  }

  /** One escape at the front of the data: `\\`, `\ ` and `\"` give the
      character itself, `\f \b \t \n \r` control characters, and a
      backslash before anything else stays and the next character is read
      normally. */
  lemma UnescapeStep(c: char, rest: string)
    ensures c in "\\ \"" ==> Unescape(['\\', c] + rest) == Cons(c, Unescape(rest))
    ensures c == 'f' ==> Unescape(['\\', c] + rest) == Cons(FormFeed, Unescape(rest))
    ensures c == 'b' ==> Unescape(['\\', c] + rest) == Cons(Backspace, Unescape(rest))
    ensures c == 't' ==> Unescape(['\\', c] + rest) == Cons('\t', Unescape(rest))
    ensures c == 'n' ==> Unescape(['\\', c] + rest) == Cons('\n', Unescape(rest))
    ensures c == 'r' ==> Unescape(['\\', c] + rest) == Cons('\r', Unescape(rest))
    ensures c !in "\\ \"fbtnr" ==> Unescape(['\\', c] + rest) == Cons('\\', Unescape([c] + rest))
  {
    var d := ['\\', c] + rest;
    assert d[2..] == rest && d[1..] == [c] + rest;
  }

  /** `\ ` is a space, a backslash before any character without an escape
      meaning stays in the text, and a backslash just before the closing
      quote reads past the data. */
  lemma OtherEscapes(c: char)
    requires c !in "\\ \"fbtnr"
    ensures CreateString("\"\\ \"") == Ok(Str(" "))
    ensures CreateString(['"', '\\', c, '"']) == Ok(Str(['\\', c]))
    ensures CreateString("\"\\\"") == Err(IndexOutOfRange)
  {
    var q2 := "\"\\ \"";
    assert q2[1..|q2| - 1] == "\\ ";
    assert "\\ "[2..] == [];
    assert [' '] + [] == " ";
    var q3 := ['"', '\\', c, '"'];
    assert q3[1..|q3| - 1] == ['\\', c];
    assert ['\\', c][1..] == [c];
    assert [c][1..] == [];
    assert [c] + [] == [c];
    assert ['\\'] + [c] == ['\\', c];
    var q4 := "\"\\\"";
    assert q4[1..|q4| - 1] == "\\";
  }

  // ----- symbols and blanks -----

  /** What a builder hands back: the symbol table it may have grown and
      the value built. */
  datatype Built = Built(engine: Engine, value: Value)

  /** CreateSymbol: the engine's `Sym(text)`, which resolves the name and
      interns it if new. */
  function CreateSymbol(e: Engine, text: string): (r: Result<Built>)
    requires WellKeyed(e)
    ensures r.Ok? ==> WellKeyed(r.value.engine) && r.value.value.Sym?
    ensures r.Ok? ==> r.value.value.name in r.value.engine.symbols
    ensures r.Ok? && ValidKeys(e) ==> ValidKeys(r.value.engine)
    ensures Resolve(e, text).Ok? ==>
      r == Ok(Built(Resolve(e, text).value.engine, Sym(Resolve(e, text).value.name)))
    ensures Resolve(e, text).Err? ==> r.Err?
  {
    var i :- Resolve(e, text);
    Ok(Built(i.engine, Sym(i.name)))
  }

  /** `String.IndexOf(c)`: the first position of `c`, or -1. */
  function IndexOf(s: string, c: char): (r: int)
    ensures -1 <= r < |s|
    ensures r == -1 <==> c !in s
    ensures r >= 0 ==> s[r] == c && c !in s[..r]
  {
    if s == [] then -1
    else if s[0] == c then 0
    else
      var k := IndexOf(s[1..], c);
      assert s[1..][..k + 1] == s[1..k + 2] by { }
      if k == -1 then -1 else k + 1
  }

  /** `String.LastIndexOf(c)`: the last position of `c`, or -1. */
  function LastIndexOf(s: string, c: char): (r: int)
    ensures -1 <= r < |s|
    ensures r == -1 <==> c !in s
    ensures r >= 0 ==> s[r] == c && c !in s[r + 1..]
  {
    if s == [] then -1
    else if s[|s| - 1] == c then |s| - 1
    else
      assert s == s[..|s| - 1] + [s[|s| - 1]];
      LastIndexOf(s[..|s| - 1], c)
  }

  /** The blank symbol for an underscore run of the given length. */
  function BlankKind(run: int): (r: Result<string>)
    ensures r.Ok? <==> 1 <= run <= 3
    ensures r.Err? ==> r.error == ArgumentOutOfRange
  {
    if run == 1 then Ok("Blank")
    else if run == 2 then Ok("BlankSequence")
    else if run == 3 then Ok("BlankNullSequence")
    else Err(ArgumentOutOfRange)
  }

  /** CreateBlank on `name` + underscores + `suffix`: the distance from the
      first to past the last underscore picks Blank, BlankSequence or
      BlankNullSequence; a suffix not starting with `.` is the head, a
      non-empty prefix names the pattern, and a `.` suffix makes it
      Optional.  The head symbol is created before the name. */
  function CreateBlank(e: Engine, text: string): (r: Result<Built>)
    requires WellKeyed(e)
    ensures r.Ok? ==> WellKeyed(r.value.engine)
    ensures r.Ok? && ValidKeys(e) ==> ValidKeys(r.value.engine)
    ensures r.Ok? ==> r.value.value.Expr?
  {
    BlankAt(e, text, IndexOf(text, '_'), LastIndexOf(text, '_') + 1)
  }

  /** CreateBlank once the first underscore `i` and the position `j` past
      the last one are known. */
  function BlankAt(e: Engine, text: string, i: int, j: int): (r: Result<Built>)
    requires WellKeyed(e)
    requires -1 <= i < |text| && 0 <= j <= |text|
    ensures r.Ok? ==> WellKeyed(r.value.engine)
    ensures r.Ok? && ValidKeys(e) ==> ValidKeys(r.value.engine)
    ensures r.Ok? ==> r.value.value.Expr?
  {
    var isNamed := i != 0;
    var hasHead := j < |text| && text[j] != '.';
    var isOpt := j < |text| && text[j] == '.';
    var kind :- BlankKind(j - i);
    var blank :- WithHead(e, System(kind), hasHead, text[j..]);
    var named :- if !isNamed then Ok(blank)
      else if i < 0 then Err(ArgumentOutOfRange)
      else Named(blank, text[..i]);
    Ok(if isOpt then Built(named.engine, Expr(System("Optional"), [named.value])) else named)
  }

  /** `blank[]`, or `blank[head]` with the head symbol resolved. */
  function WithHead(e: Engine, blank: Value, hasHead: bool, head: string): (r: Result<Built>)
    requires WellKeyed(e)
    ensures r.Ok? ==> WellKeyed(r.value.engine)
    ensures r.Ok? && ValidKeys(e) ==> ValidKeys(r.value.engine)
    ensures !hasHead ==> r == Ok(Built(e, Expr(blank, [])))
    ensures r.Ok? ==> r.value.value.Expr? && r.value.value.head == blank
  {
    if !hasHead then Ok(Built(e, Expr(blank, [])))
    else
      var h :- CreateSymbol(e, head);
      Ok(Built(h.engine, Expr(blank, [h.value])))
  }

  /** `Pattern[name, blank]`, with the name symbol resolved. */
  function Named(b: Built, name: string): (r: Result<Built>)
    requires WellKeyed(b.engine)
    ensures r.Ok? ==> WellKeyed(r.value.engine)
    ensures r.Ok? && ValidKeys(b.engine) ==> ValidKeys(r.value.engine)
    ensures r.Ok? ==> r.value.value.Expr? && r.value.value.head == System("Pattern")
    ensures r.Ok? ==> |r.value.value.parts| == 2 && r.value.value.parts[1] == b.value
  {
    var n :- CreateSymbol(b.engine, name);
    Ok(Built(n.engine, Expr(System("Pattern"), [n.value, b.value])))
  }

  /** Where the underscores sit in `name` + `k` underscores + `suffix`. */
  lemma UnderscorePositions(name: string, k: nat, suffix: string)
    requires k >= 1 && '_' !in name && '_' !in suffix
    ensures var t := name + Repeat('_', k) + suffix;
      IndexOf(t, '_') == |name| && LastIndexOf(t, '_') + 1 == |name| + k &&
      t[..|name|] == name && t[|name| + k..] == suffix
  {
    var t := name + Repeat('_', k) + suffix;
    assert t[|name|] == '_';
    assert t[..|name|] == name;
    assert t[|name| + k - 1] == '_';
    assert t[|name| + k..] == suffix;
  }

  /** The blank symbol names for runs of one, two and three underscores. */
  function KindName(k: nat): string
    requires 1 <= k <= 3
  {
    if k == 1 then "Blank" else if k == 2 then "BlankSequence" else "BlankNullSequence"
  }

  /** A run of more than three underscores throws, whatever the name and
      suffix around it. */
  lemma CreateBlankLongRun(e: Engine, name: string, k: nat, suffix: string)
    requires WellKeyed(e)
    requires k > 3 && '_' !in name && '_' !in suffix
    ensures CreateBlank(e, name + Repeat('_', k) + suffix) == Err(ArgumentOutOfRange)
  {
    UnderscorePositions(name, k, suffix);
  }

  /** `_`, `__`, `___` are the three blanks, with no head. */
  lemma CreateBlankAnonymous(e: Engine, k: nat)
    requires WellKeyed(e) && 1 <= k <= 3
    ensures CreateBlank(e, Repeat('_', k)) == Ok(Built(e, Expr(System(KindName(k)), [])))
  {
    var t := Repeat('_', k);
    UnderscorePositions([], k, []);
    assert [] + t + [] == t;
    assert IndexOf(t, '_') == 0;
    assert LastIndexOf(t, '_') + 1 == k;
    assert BlankKind(k - 0) == Ok(KindName(k));
    assert BlankAt(e, t, 0, k) == Ok(Built(e, Expr(System(KindName(k)), [])));
  }

  /** Where the underscores sit in `k` underscores + `suffix`. */
  lemma LeadingUnderscores(k: nat, suffix: string)
    requires k >= 1 && '_' !in suffix
    ensures var t := Repeat('_', k) + suffix;
      IndexOf(t, '_') == 0 && LastIndexOf(t, '_') + 1 == k && |t| == k + |suffix| && t[k..] == suffix
  {
    UnderscorePositions([], k, suffix);
    assert [] + Repeat('_', k) + suffix == Repeat('_', k) + suffix;
  }

  /** `_.`: an optional blank. */
  lemma CreateBlankOptional(e: Engine, k: nat)
    requires WellKeyed(e) && 1 <= k <= 3
    ensures CreateBlank(e, Repeat('_', k) + ".") ==
      Ok(Built(e, Expr(System("Optional"), [Expr(System(KindName(k)), [])])))
  {
    var t := Repeat('_', k) + ".";
    LeadingUnderscores(k, ".");
    assert t[k] == t[k..][0] == '.';
    assert BlankKind(k - 0) == Ok(KindName(k));
    assert CreateBlank(e, t) == BlankAt(e, t, 0, k);
  }

  /** `_h`: a suffix not starting with `.` becomes the blank's head. */
  lemma CreateBlankHeaded(e: Engine, k: nat, head: string)
    requires WellKeyed(e)
    requires 1 <= k <= 3 && head != [] && head[0] != '.' && '_' !in head
    requires Resolve(e, head).Ok?
    ensures var h := Resolve(e, head).value;
      CreateBlank(e, Repeat('_', k) + head) == Ok(Built(h.engine, Expr(System(KindName(k)), [Sym(h.name)])))
  {
    HeadedBlankAt(e, k, head);
  }

  lemma HeadedBlankAt(e: Engine, k: nat, head: string)
    requires WellKeyed(e)
    requires 1 <= k <= 3 && head != [] && head[0] != '.' && '_' !in head
    ensures CreateBlank(e, Repeat('_', k) + head) == WithHead(e, System(KindName(k)), true, head)
  {
    var t := Repeat('_', k) + head;
    LeadingUnderscores(k, head);
    assert t[k] == t[k..][0] == head[0];
    assert BlankKind(k - 0) == Ok(KindName(k));
    assert CreateBlank(e, t) == BlankAt(e, t, 0, k);
  }

  /** `x_`: a non-empty prefix names the pattern. */
  lemma CreateBlankNamed(e: Engine, name: string, k: nat)
    requires WellKeyed(e)
    requires 1 <= k <= 3 && name != [] && '_' !in name
    requires Resolve(e, name).Ok?
    ensures var n := Resolve(e, name).value;
      CreateBlank(e, name + Repeat('_', k)) ==
        Ok(Built(n.engine, Expr(System("Pattern"), [Sym(n.name), Expr(System(KindName(k)), [])])))
  {
    var t := name + Repeat('_', k);
    var i := |name|;
    assert IndexOf(t, '_') == i && LastIndexOf(t, '_') + 1 == i + k && |t| == i + k && t[..i] == name by {
      UnderscorePositions(name, k, []);
      assert name + Repeat('_', k) + [] == t;
    }
    NamedCreateBlank(e, t, i, k, Resolve(e, name).value);
  }

  /** CreateBlank of a text whose only underscores are the run of `k` at
      `i > 0` that ends it: `Pattern[name, blank]`. */
  lemma NamedCreateBlank(e: Engine, text: string, i: nat, k: nat, n: Interned)
    requires WellKeyed(e) && 0 < i && 1 <= k <= 3 && i + k == |text|
    requires IndexOf(text, '_') == i && LastIndexOf(text, '_') + 1 == i + k
    requires Resolve(e, text[..i]) == Ok(n)
    ensures CreateBlank(e, text) == Ok(Built(n.engine, Expr(System("Pattern"), [Sym(n.name), Expr(System(KindName(k)), [])])))
  {
    assert CreateBlank(e, text) == BlankAt(e, text, i, i + k);
    NamedBlankAt(e, text, i, k);
  }

  /** The same with a `.` after the run: `Optional[Pattern[name, blank]]`. */
  lemma NamedOptionalCreateBlank(e: Engine, text: string, i: nat, k: nat, n: Interned)
    requires WellKeyed(e) && 0 < i && 1 <= k <= 3 && i + k < |text| && text[i + k] == '.'
    requires IndexOf(text, '_') == i && LastIndexOf(text, '_') + 1 == i + k
    requires Resolve(e, text[..i]) == Ok(n)
    ensures CreateBlank(e, text) == Ok(Built(n.engine, Expr(System("Optional"),
      [Expr(System("Pattern"), [Sym(n.name), Expr(System(KindName(k)), [])])])))
  {
    assert CreateBlank(e, text) == BlankAt(e, text, i, i + k);
    NamedBlankAt(e, text, i, k);
  }

  /** A named blank whose run of `k` underscores starts at `i` and ends the
      text or is followed by `.`. */
  lemma NamedBlankAt(e: Engine, text: string, i: nat, k: nat)
    requires WellKeyed(e) && 0 < i && 1 <= k <= 3 && i + k <= |text|
    requires i + k == |text| || text[i + k] == '.'
    requires Resolve(e, text[..i]).Ok?
    ensures var n := Resolve(e, text[..i]).value;
      var p := Expr(System("Pattern"), [Sym(n.name), Expr(System(KindName(k)), [])]);
      BlankAt(e, text, i, i + k) ==
        Ok(Built(n.engine, if i + k < |text| then Expr(System("Optional"), [p]) else p))
  {
    assert BlankKind(i + k - i) == Ok(KindName(k));
  }

  /** `x_.`: a named optional blank, with `Optional` outermost. */
  lemma CreateBlankNamedOptional(e: Engine, name: string, k: nat)
    requires WellKeyed(e)
    requires 1 <= k <= 3 && name != [] && '_' !in name
    requires Resolve(e, name).Ok?
    ensures var n := Resolve(e, name).value;
      CreateBlank(e, name + Repeat('_', k) + ".") ==
        Ok(Built(n.engine, Expr(System("Optional"), [Expr(System("Pattern"), [Sym(n.name), Expr(System(KindName(k)), [])])])))
  {
    var t := name + Repeat('_', k) + ".";
    var i := |name|;
    assert IndexOf(t, '_') == i && LastIndexOf(t, '_') + 1 == i + k &&
      |t| == i + k + 1 && t[i + k] == '.' && t[..i] == name by {
      UnderscorePositions(name, k, ".");
    }
    NamedOptionalCreateBlank(e, t, i, k, Resolve(e, name).value);
  }

  /** `x_h`: a name before the run and a head after it give
      `Pattern[x, kind[h]]`; the head symbol is created first and the name
      in the engine that leaves. */
  lemma CreateBlankNamedHeaded(e: Engine, name: string, k: nat, head: string)
    requires WellKeyed(e)
    requires 1 <= k <= 3 && name != [] && '_' !in name
    requires head != [] && head[0] != '.' && '_' !in head
    requires Resolve(e, head).Ok? && Resolve(Resolve(e, head).value.engine, name).Ok?
    ensures var h := Resolve(e, head).value;
      var n := Resolve(h.engine, name).value;
      CreateBlank(e, name + Repeat('_', k) + head) ==
        Ok(Built(n.engine, Expr(System("Pattern"), [Sym(n.name), Expr(System(KindName(k)), [Sym(h.name)])])))
  {
    var t := name + Repeat('_', k) + head;
    var i := |name|;
    assert IndexOf(t, '_') == i && LastIndexOf(t, '_') + 1 == i + k &&
      i + k < |t| && t[i + k] == head[0] && t[..i] == name && t[i + k..] == head by {
      UnderscorePositions(name, k, head);
    }
    var h := Resolve(e, head).value;
    NamedHeadedCreateBlank(e, t, i, k, h, Resolve(h.engine, name).value);
  }

  /** CreateBlank of a text whose only underscores are the run of `k` at
      `i > 0`, followed by a head: `Pattern[name, kind[head]]`, the head
      resolved first. */
  lemma NamedHeadedCreateBlank(e: Engine, text: string, i: nat, k: nat, h: Interned, n: Interned)
    requires WellKeyed(e) && 0 < i && 1 <= k <= 3 && i + k < |text| && text[i + k] != '.'
    requires IndexOf(text, '_') == i && LastIndexOf(text, '_') + 1 == i + k
    requires Resolve(e, text[i + k..]) == Ok(h) && Resolve(h.engine, text[..i]) == Ok(n)
    ensures CreateBlank(e, text) ==
      Ok(Built(n.engine, Expr(System("Pattern"), [Sym(n.name), Expr(System(KindName(k)), [Sym(h.name)])])))
  {
    hide *;
    CreateBlankSplits(e, text, i, i + k);
    NamedHeadedBlankAt(e, text, i, k, h, n);
  }

  /** CreateBlank is BlankAt at the first underscore and past the last. */
  lemma CreateBlankSplits(e: Engine, text: string, i: int, j: int)
    requires WellKeyed(e)
    requires IndexOf(text, '_') == i && LastIndexOf(text, '_') + 1 == j
    ensures CreateBlank(e, text) == BlankAt(e, text, i, j)
  {
    hide BlankAt;
  }

  /** A named blank whose run of `k` underscores starts at `i` and is
      followed by a head. */
  lemma NamedHeadedBlankAt(e: Engine, text: string, i: nat, k: nat, h: Interned, n: Interned)
    requires WellKeyed(e) && 0 < i && 1 <= k <= 3 && i + k < |text| && text[i + k] != '.'
    requires Resolve(e, text[i + k..]) == Ok(h) && Resolve(h.engine, text[..i]) == Ok(n)
    ensures BlankAt(e, text, i, i + k) ==
      Ok(Built(n.engine, Expr(System("Pattern"), [Sym(n.name), Expr(System(KindName(k)), [Sym(h.name)])])))
  {
    assert BlankKind(i + k - i) == Ok(KindName(k));
  }

  /** A text without any underscore counts as a named blank whose name
      starts before the text, and cutting that name out throws. */
  lemma CreateBlankWithoutUnderscore(e: Engine, text: string)
    requires WellKeyed(e) && '_' !in text
    ensures CreateBlank(e, text).Err?
  {
  }
}
