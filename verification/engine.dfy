/** The engine state and its symbol table: the name check, interning, the
    resolution of current-context, qualified and context-path names, and
    the defaults a new engine starts from, including the attributes and
    hooks `SystemSymbols.Init` gives `Set` and `SetDelayed`.
 */
module Engines {
  import opened Wrappers
  import opened Values
  import opened Symbols

  /** The engine: the symbol table keyed by full name, the current context
      and the context path. */
  datatype Engine = Engine(symbols: map<string, SymbolRecord>, context: string, contextPath: seq<string>)

  /** Every record is stored under its own full name. */
  predicate WellKeyed(e: Engine) {
    forall k :: k in e.symbols ==> e.symbols[k].fullName == k
  }

  /** Every key passed the name check.  Interning keeps this; the rule
      stores of `Set` do not need it. */
  predicate ValidKeys(e: Engine) {
    forall k :: k in e.symbols ==> IsValidSymbolName(k)
  }

  /** The record of the symbol with this full name.  Every symbol value the
      kernel builds comes from the table; a name the table has not seen
      stands for a fresh symbol. */
  function Lookup(e: Engine, name: string): (s: SymbolRecord)
    requires WellKeyed(e)
    ensures s.fullName == name
    ensures name in e.symbols ==> s == e.symbols[name]
    ensures name !in e.symbols ==> s == NewSymbol(name)
  {
    if name in e.symbols then e.symbols[name] else NewSymbol(name)
  }

  /** Store a record under its full name. */
  function Store(e: Engine, s: SymbolRecord): (r: Engine)
    requires WellKeyed(e)
    ensures WellKeyed(r)
    ensures ValidKeys(e) && IsValidSymbolName(s.fullName) ==> ValidKeys(r)
    ensures r.context == e.context && r.contextPath == e.contextPath
    ensures Lookup(r, s.fullName) == s
    ensures forall n :: n != s.fullName ==> Lookup(r, n) == Lookup(e, n)
    ensures r.symbols.Keys == e.symbols.Keys + {s.fullName}
  {
    e.(symbols := e.symbols[s.fullName := s])
  }

  // ---------------------------------------------------------------------
  // SymbolTable.IsValidSymbolName

  /** The letters and digits `char.IsLetter` and `char.IsLetterOrDigit`
      accept, restricted to ASCII. */
  predicate IsLetter(c: char) {
    ('a' <= c <= 'z') || ('A' <= c <= 'Z')
  }

  predicate IsDigit(c: char) {
    '0' <= c <= '9'
  }

  predicate ValidStartChar(c: char) {
    IsLetter(c) || c == '$'
  }

  predicate ValidChar(c: char) {
    IsLetter(c) || IsDigit(c) || c == '$'
  }

  /** `string.Split(c)`: the pieces between occurrences of `c`; an empty
      string is one empty piece. */
  function SplitOn(s: string, c: char): (r: seq<string>)
    ensures |r| >= 1
    ensures forall k :: 0 <= k < |r| ==> c !in r[k]
  {
    if s == [] then [[]]
    else
      var init := SplitOn(s[..|s| - 1], c);
      if s[|s| - 1] == c then init + [[]]
      else init[..|init| - 1] + [init[|init| - 1] + [s[|s| - 1]]]
  }

  /** One backtick-separated segment of a valid name. */
  predicate ValidSegment(p: string) {
    p != [] && ValidStartChar(p[0]) && forall k :: 0 <= k < |p| ==> ValidChar(p[k])
  }

  /** IsValidSymbolName: non-empty, and every backtick segment non-empty,
      starting with a letter or `$` and holding only letters, digits and
      `$`. */
  predicate IsValidSymbolName(key: string) {
    key != [] && var parts := SplitOn(key, '`');
    forall k :: 0 <= k < |parts| ==> ValidSegment(parts[k])
  }

  /** A segment that is still being read: empty, or valid so far. */
  predicate ValidSoFar(p: string) {
    p == [] || ValidSegment(p)
  }

  /** The pieces of a prefix: all but the last are finished segments. */
  predicate PrefixOk(parts: seq<string>) {
    |parts| >= 1 &&
    (forall k :: 0 <= k < |parts| - 1 ==> ValidSegment(parts[k])) &&
    ValidSoFar(parts[|parts| - 1])
  }

  /** The name check as one pass over the characters, tracking only whether
      the current segment is empty; it agrees with the split-based
      definition on every string. */
  method CheckSymbolName(key: string) returns (ok: bool)
    ensures ok == IsValidSymbolName(key)
  {
    var good := true;
    var atStart := true;
    var i := 0;
    while i < |key|
      invariant 0 <= i <= |key|
      invariant ScanState(key[..i], good, atStart)
    {
      var c := key[i];
      ScanAt(key, i, good, atStart);
      if c == '`' {
        good := good && !atStart;
        atStart := true;
      } else if atStart {
        good := good && ValidStartChar(c);
        atStart := false;
      } else {
        good := good && ValidChar(c);
      }
      i := i + 1;
    }
    assert key[..i] == key;
    ScanDone(key, good, atStart);
    ok := |key| > 0 && good && !atStart;
  }

  /** At the end of the scan: the name is valid exactly when it is
      non-empty, every piece was acceptable and the last one is not empty. */
  lemma ScanDone(key: string, good: bool, atStart: bool)
    requires ScanState(key, good, atStart)
    ensures (|key| > 0 && good && !atStart) == IsValidSymbolName(key)
  {
    var parts := SplitOn(key, '`');
    if key != [] && good && !atStart {
      assert forall k :: 0 <= k < |parts| - 1 ==> ValidSegment(parts[k]);
      assert ValidSegment(parts[|parts| - 1]);
    }
  }

  /** What the scan knows after reading `p`: whether the pieces so far are
      acceptable, and whether the current piece is empty. */
  predicate ScanState(p: string, good: bool, atStart: bool) {
    var parts := SplitOn(p, '`');
    good == PrefixOk(parts) && (atStart <==> parts[|parts| - 1] == [])
  }

  /** One step of the scan, at position i of the key. */
  lemma ScanAt(key: string, i: nat, good: bool, atStart: bool)
    requires i < |key| && ScanState(key[..i], good, atStart)
    ensures key[i] == '`' ==> ScanState(key[..i + 1], good && !atStart, true)
    ensures key[i] != '`' && atStart ==> ScanState(key[..i + 1], good && ValidStartChar(key[i]), false)
    ensures key[i] != '`' && !atStart ==> ScanState(key[..i + 1], good && ValidChar(key[i]), false)
  {
    ScanStep(key[..i], key[i], good, atStart);
    assert key[..i + 1] == key[..i] + [key[i]];
  }

  lemma ScanStep(p: string, c: char, good: bool, atStart: bool)
    requires ScanState(p, good, atStart)
    ensures c == '`' ==> ScanState(p + [c], good && !atStart, true)
    ensures c != '`' && atStart ==> ScanState(p + [c], good && ValidStartChar(c), false)
    ensures c != '`' && !atStart ==> ScanState(p + [c], good && ValidChar(c), false)
  {
    SplitStep(p, c);
    var before := SplitOn(p, '`');
    PrefixOkExtend(before, c);
    if c == '`' {
      assert SplitOn(p + [c], '`') == before + [[]];
    } else {
      var last := before[|before| - 1];
      assert SplitOn(p + [c], '`') == before[..|before| - 1] + [last + [c]];
    }
  }

  /** How one more character changes whether the pieces read so far are
      acceptable. */
  lemma PrefixOkExtend(before: seq<string>, c: char)
    requires |before| >= 1
    ensures c == '`' ==> (PrefixOk(before + [[]]) <==> PrefixOk(before) && before[|before| - 1] != [])
    ensures c != '`' ==>
      var last := before[|before| - 1];
      var after := before[..|before| - 1] + [last + [c]];
      (after[|after| - 1] != []) &&
      (PrefixOk(after) <==> PrefixOk(before) && if last == [] then ValidStartChar(c) else ValidChar(c))
  {
    var n := |before|;
    var last := before[n - 1];
    if c == '`' {
      var after := before + [[]];
      assert forall k :: 0 <= k < n ==> after[k] == before[k];
    } else {
      var after := before[..n - 1] + [last + [c]];
      assert forall k :: 0 <= k < n - 1 ==> after[k] == before[k];
      assert after[n - 1] == last + [c];
      if last == [] {
        assert last + [c] == [c];
      } else {
        ValidSegmentSnoc(last, c);
      }
    }
  }

  lemma ValidSegmentSnoc(p: string, c: char)
    requires p != []
    ensures ValidSegment(p + [c]) <==> ValidSegment(p) && ValidChar(c)
  {
    assert forall k :: 0 <= k < |p| ==> (p + [c])[k] == p[k];
    assert (p + [c])[|p|] == c;
  }

  /** A string without backticks is one piece. */
  lemma {:induction false} SplitWithoutSeparator(x: string)
    requires '`' !in x
    ensures SplitOn(x, '`') == [x]
  {
    if x != [] {
      SplitWithoutSeparator(x[..|x| - 1]);
      assert x[..|x| - 1] + [x[|x| - 1]] == x;
    }
  }

  /** A backtick followed by a backtick-free tail adds that tail as the last
      piece. */
  lemma {:induction false} SplitLastPiece(p: string, x: string)
    requires '`' !in x
    ensures SplitOn(p + ['`'] + x, '`') == SplitOn(p, '`') + [x]
    decreases |x|
  {
    if x == [] {
      assert p + ['`'] + x == p + ['`'];
      SplitStep(p, '`');
    } else {
      var y := x[..|x| - 1];
      assert y + [x[|x| - 1]] == x;
      assert p + ['`'] + x == (p + ['`'] + y) + [x[|x| - 1]];
      SplitLastPiece(p, y);
      SplitStep(p + ['`'] + y, x[|x| - 1]);
    }
  }

  /** A name qualified by one context is valid exactly when both the
      context and the short name are valid segments. */
  lemma QualifiedNameValid(context: string, name: string)
    requires '`' !in context && '`' !in name
    ensures IsValidSymbolName(context + "`" + name) <==> ValidSegment(context) && ValidSegment(name)
  {
    SplitWithoutSeparator(context);
    SplitLastPiece(context, name);
    assert context + "`" + name == context + ['`'] + name;
    var parts := SplitOn(context + "`" + name, '`');
    assert parts == [context, name];
    if ValidSegment(context) && ValidSegment(name) {
      assert forall k :: 0 <= k < |parts| ==> ValidSegment(parts[k]);
    } else {
      assert !ValidSegment(parts[0]) || !ValidSegment(parts[1]);
    }
  }

  /** How one more character extends the pieces of a string. */
  lemma SplitStep(p: string, c: char)
    ensures var before := SplitOn(p, '`');
      SplitOn(p + [c], '`') ==
        if c == '`' then before + [[]]
        else before[..|before| - 1] + [before[|before| - 1] + [c]]
  {
    assert (p + [c])[..|p + [c]| - 1] == p;
  }

  // ---------------------------------------------------------------------
  // SymbolTable.TryGetSymbol / GetSymbol

  /** TryGetSymbol: an invalid key throws; otherwise the record, if any.  It
      never changes the table. */
  function TryGetSymbol(e: Engine, key: string): (r: Result<Option<SymbolRecord>>)
    ensures r.Err? <==> !IsValidSymbolName(key)
    ensures r.Err? ==> r.error == InvalidSymbolName
    ensures r.Ok? ==> (r.value.Some? <==> key in e.symbols)
    ensures r.Ok? && r.value.Some? ==> r.value.value == e.symbols[key]
  {
    if !IsValidSymbolName(key) then Err(InvalidSymbolName)
    else if key in e.symbols then Ok(Some(e.symbols[key]))
    else Ok(None)
  }

  /** The outcome of interning: the engine afterwards and the full name of
      the symbol found or created. */
  datatype Interned = Interned(engine: Engine, name: string)

  /** SymbolTable.GetSymbol: the existing symbol under the key, otherwise a
      new one stored under exactly that key; an invalid key throws. */
  function GetSymbol(e: Engine, key: string): (r: Result<Interned>)
    requires WellKeyed(e)
    ensures r.Err? <==> !IsValidSymbolName(key)
    ensures r.Ok? ==> r.value.name == key && key in r.value.engine.symbols
    ensures r.Ok? ==> WellKeyed(r.value.engine)
    ensures r.Ok? && ValidKeys(e) ==> ValidKeys(r.value.engine)
    ensures r.Ok? ==> r.value.engine.context == e.context && r.value.engine.contextPath == e.contextPath
    ensures r.Ok? ==> r.value.engine.symbols.Keys == e.symbols.Keys + {key}
    ensures r.Ok? ==> forall k :: k in e.symbols ==> r.value.engine.symbols[k] == e.symbols[k]
    ensures r.Ok? && key !in e.symbols ==> r.value.engine.symbols[key] == NewSymbol(key)
  {
    var found :- TryGetSymbol(e, key);
    if found.Some? then Ok(Interned(e, key))
    else Ok(Interned(e.(symbols := e.symbols[key := NewSymbol(key)]), key))
  }

  // ---------------------------------------------------------------------
  // OsmiumEngine.GetSymbol

  /** OsmiumEngine.GetSymbol(context, name): the key `context + name`. */
  function GetSymbolIn(e: Engine, context: string, name: string): (r: Result<Interned>)
    requires WellKeyed(e)
    ensures r == GetSymbol(e, context + name)
    ensures r.Ok? ==> r.value.name == context + name
  {
    GetSymbol(e, context + name)
  }

  /** The first context of the path under which `name` already exists; an
      invalid key on the way throws. */
  function FindInPath(e: Engine, path: seq<string>, name: string): (r: Result<Option<string>>)
    ensures r.Ok? && r.value.Some? ==>
      exists k :: 0 <= k < |path| && r.value.value == path[k] + name && path[k] + name in e.symbols &&
        forall j :: 0 <= j < k ==> path[j] + name !in e.symbols
    ensures r == Ok(None) <==>
      forall k :: 0 <= k < |path| ==> IsValidSymbolName(path[k] + name) && path[k] + name !in e.symbols
  {
    if path == [] then Ok(None)
    else
      var here :- TryGetSymbol(e, path[0] + name);
      if here.Some? then Ok(Some(path[0] + name))
      else
        var rest := FindInPath(e, path[1..], name);
        assert forall k :: 1 <= k < |path| ==> path[k] == path[1..][k - 1];
        rest
  }

  /** OsmiumEngine.GetSymbol(name): a name starting with a backtick is in
      the current context; a name holding a backtick elsewhere is already a
      full name; a bare name is looked up along the context path and, when
      no context has it, created in the current context. */
  function Resolve(e: Engine, name: string): (r: Result<Interned>)
    requires WellKeyed(e)
    ensures r.Ok? ==> WellKeyed(r.value.engine) && r.value.name in r.value.engine.symbols
    ensures r.Ok? && ValidKeys(e) ==> ValidKeys(r.value.engine)
    ensures r.Ok? ==> r.value.engine.context == e.context && r.value.engine.contextPath == e.contextPath
    ensures r.Ok? ==> r.value.engine.symbols.Keys == e.symbols.Keys + {r.value.name}
    ensures r.Ok? ==> forall k :: k in e.symbols ==> r.value.engine.symbols[k] == e.symbols[k]
  {
    if '`' in name then
      if name[0] == '`' then GetSymbol(e, e.context + name[1..])
      else GetSymbol(e, name)
    else
      var found :- FindInPath(e, e.contextPath, name);
      if found.Some? then Ok(Interned(e, found.value))
      else GetSymbol(e, e.context + name)
  }

  /** A leading backtick means the current context. */
  lemma ResolveCurrentContext(e: Engine, name: string)
    requires WellKeyed(e) && name != [] && name[0] == '`'
    ensures Resolve(e, name) == GetSymbol(e, e.context + name[1..])
    ensures Resolve(e, name).Ok? ==> Resolve(e, name).value.name == e.context + name[1..]
  {
  }

  /** A backtick anywhere but the front means the name is used verbatim. */
  lemma ResolveQualified(e: Engine, name: string)
    requires WellKeyed(e) && '`' in name && name[0] != '`'
    ensures Resolve(e, name) == GetSymbol(e, name)
    ensures Resolve(e, name).Ok? ==> Resolve(e, name).value.name == name
  {
  }

  /** A bare name resolves to the first context of the path that has it,
      without changing the table; only when none has it is it created in
      the current context. */
  lemma ResolveBare(e: Engine, name: string)
    requires WellKeyed(e) && ValidKeys(e) && '`' !in name
    ensures forall k :: (0 <= k < |e.contextPath| && e.contextPath[k] + name in e.symbols &&
      forall j :: 0 <= j < k ==> IsValidSymbolName(e.contextPath[j] + name) && e.contextPath[j] + name !in e.symbols) ==>
        Resolve(e, name) == Ok(Interned(e, e.contextPath[k] + name))
    ensures (forall k :: 0 <= k < |e.contextPath| ==>
        IsValidSymbolName(e.contextPath[k] + name) && e.contextPath[k] + name !in e.symbols) ==>
      Resolve(e, name) == GetSymbol(e, e.context + name)
  {
    forall k | 0 <= k < |e.contextPath| && e.contextPath[k] + name in e.symbols &&
      (forall j :: 0 <= j < k ==> IsValidSymbolName(e.contextPath[j] + name) && e.contextPath[j] + name !in e.symbols)
      ensures Resolve(e, name) == Ok(Interned(e, e.contextPath[k] + name))
    {
      FindInPathFirst(e, e.contextPath, name, k);
    }
  }

  lemma {:induction false} FindInPathFirst(e: Engine, path: seq<string>, name: string, k: nat)
    requires ValidKeys(e)
    requires k < |path| && path[k] + name in e.symbols
    requires forall j :: 0 <= j < k ==> IsValidSymbolName(path[j] + name) && path[j] + name !in e.symbols
    ensures IsValidSymbolName(path[k] + name)
    ensures FindInPath(e, path, name) == Ok(Some(path[k] + name))
  {
    if k > 0 {
      FindInPathFirst(e, path[1..], name, k - 1);
    }
  }

  /** Interning: resolving a name a second time gives the same symbol and
      leaves the engine as the first resolution left it. */
  lemma {:induction false} ResolveIsInterned(e: Engine, name: string)
    requires WellKeyed(e)
    ensures var r := Resolve(e, name);
      r.Ok? ==> Resolve(r.value.engine, name) == r
  {
    var r := Resolve(e, name);
    if r.Ok? && '`' !in name {
      var e1 := r.value.engine;
      var found := FindInPath(e, e.contextPath, name);
      assert found.Ok?;
      if found.value.Some? {
        assert e1 == e;
      } else {
        FindInPathGrows(e, e1, e.contextPath, name);
        var found1 := FindInPath(e1, e.contextPath, name);
        if found1 != Ok(None) {
          FindInPathAfterInsert(e, e.contextPath, name, e.context + name);
        }
      }
    }
  }

  /** When every key along the path is valid, the search cannot throw,
      whatever the table. */
  lemma {:induction false} FindInPathGrows(e: Engine, e1: Engine, path: seq<string>, name: string)
    requires FindInPath(e, path, name) == Ok(None)
    ensures FindInPath(e1, path, name).Ok?
  {
    if path != [] {
      assert IsValidSymbolName(path[0] + name);
      assert FindInPath(e, path[1..], name) == Ok(None) by {
        assert forall k :: 0 <= k < |path[1..]| ==> path[1..][k] == path[k + 1];
      }
      FindInPathGrows(e, e1, path[1..], name);
    }
  }

  /** After a failed search created `context + name`, the search either
      still fails or finds exactly that key. */
  lemma {:induction false} FindInPathAfterInsert(e: Engine, path: seq<string>, name: string, key: string)
    requires FindInPath(e, path, name) == Ok(None)
    requires IsValidSymbolName(key)
    ensures var e1 := e.(symbols := e.symbols[key := NewSymbol(key)]);
      FindInPath(e1, path, name) == Ok(None) || FindInPath(e1, path, name) == Ok(Some(key))
  {
    if path != [] {
      FindInPathAfterInsert(e, path[1..], name, key);
    }
  }

  // ---------------------------------------------------------------------
  // A new engine

  const SetName: string := SystemContext + "Set"
  const SetDelayedName: string := SystemContext + "SetDelayed"

  /** The short names of the `System`` symbols the kernel itself refers to
      (those of the modelled code and those ExprBuildListener builds),
      grouped by the code that uses them. */
  datatype NameGroup =
    Patterns
    | Slots
    | EvaluatorForms
    | Builtins
    | Atoms
    | Maps
    | Comparisons
    | Identities
    | Assignments
    | Streams
    | Forms
    | Rules
    | PatternOps
    | Increments
    | Logic
    | Tags

  function GroupNames(g: NameGroup): seq<string> {
    match g
    // The pattern forms.
    case Patterns => ["Blank", "BlankSequence", "BlankNullSequence", "Pattern", "Optional", "Sequence"]
    // The slot and history forms.
    case Slots => ["Slot", "SlotSequence", "Out"]
    // The evaluator's constants and the assignment heads.
    case EvaluatorForms => ["True", "False", "And", "Null", "Set", "SetDelayed"]
    // The built-in heads.
    case Builtins => ["Append", "Apply", "Plus", "Times", "Power"]
    // The heads of atoms.
    case Atoms => ["Integer", "Rational", "Real", "Complex", "String", "Symbol"]
    // The parser's mapping and postfix operators.
    case Maps => ["Map", "MapAll", "Conjugate", "Transpose", "ConjugateTranspose"]
    // The parser's comparison operators.
    case Comparisons => ["Equal", "Unequal", "Greater", "Less", "GreaterEqual", "LessEqual"]
    // The parser's chained-comparison, identity and sign operators.
    case Identities => ["Inequality", "SameQ", "UnsameQ", "PlusMinus", "MinusPlus"]
    // The parser's compound assignment operators.
    case Assignments => ["AddTo", "SubtractFrom", "TimesBy", "DivideBy", "UpSet", "UpSetDelayed"]
    // The parser's output operators.
    case Streams => ["Put", "PutAppend"]
    // The listener's compound forms.
    case Forms => ["Part", "List", "Association", "CompoundExpression", "MessageName", "Get"]
    // The listener's rule and replacement operators.
    case Rules => ["Rule", "DelayedRule", "TwoWayRule", "ReplaceAll", "ReplaceRepeated", "Condition"]
    // The listener's pattern and function operators.
    case PatternOps => ["Alternatives", "PatternTest", "Repeated", "RepeatedNull", "Function", "Derivative"]
    // The listener's increment, factorial and negation operators.
    case Increments => ["Increment", "Decrement", "PreIncrement", "PreDecrement", "Factorial", "Factorial2", "Not"]
    // The listener's disjunction, composition and string operators.
    case Logic => ["Or", "Composition", "RightComposition", "StringExpression", "StringJoin"]
    // The listener's tagged assignments.
    case Tags => ["TagSet", "TagSetDelayed", "TagUnset", "Unset"]
  }

  /** Every name of the list is one segment of a symbol name: a letter or
      `$` first, then letters, digits or `$` (the per-segment rule of
      IsValidSymbolName). */
  predicate AllSegments(system: seq<string>) {
    forall w :: w in system ==> ValidSegment(w)
  }

  /** Every name the kernel refers to is in the list. */
  predicate CoversKernel(system: seq<string>) {
    forall g: NameGroup, w :: w in GroupNames(g) ==> w in system
  }

  /** The kernel's own names form a list a new engine can start from. */
  lemma KernelNamesSuffice() returns (system: seq<string>)
    ensures AllSegments(system) && CoversKernel(system)
  {
    system := GroupNames(Patterns) + GroupNames(Slots) + GroupNames(EvaluatorForms) + GroupNames(Builtins) +
      GroupNames(Atoms) + GroupNames(Maps) + GroupNames(Comparisons) + GroupNames(Identities) +
      GroupNames(Assignments) + GroupNames(Streams) + GroupNames(Forms) + GroupNames(Rules) +
      GroupNames(PatternOps) + GroupNames(Increments) + GroupNames(Logic) + GroupNames(Tags);
    PatternAreSegments();
    SlotAreSegments();
    EvaluatorAreSegments();
    BuiltinAreSegments();
    AtomAreSegments();
    MapAreSegments();
    ComparisonAreSegments();
    SameAreSegments();
    AssignAreSegments();
    StreamAreSegments();
    FormAreSegments();
    RuleAreSegments();
    PatternOpAreSegments();
    IncrementAreSegments();
    LogicAreSegments();
    TagAreSegments();
  }

  lemma PatternAreSegments()
    ensures forall w :: w in GroupNames(Patterns) ==> ValidSegment(w)
  {
    assert ValidSegment("Blank");
    assert ValidSegment("BlankSequence");
    assert ValidSegment("BlankNullSequence");
    assert ValidSegment("Pattern");
    assert ValidSegment("Optional");
    assert ValidSegment("Sequence");
  }

  lemma SlotAreSegments()
    ensures forall w :: w in GroupNames(Slots) ==> ValidSegment(w)
  {
    assert ValidSegment("Slot");
    assert ValidSegment("SlotSequence");
    assert ValidSegment("Out");
  }

  lemma EvaluatorAreSegments()
    ensures forall w :: w in GroupNames(EvaluatorForms) ==> ValidSegment(w)
  {
    assert ValidSegment("True");
    assert ValidSegment("False");
    assert ValidSegment("And");
    assert ValidSegment("Null");
    assert ValidSegment("Set");
    assert ValidSegment("SetDelayed");
  }

  lemma BuiltinAreSegments()
    ensures forall w :: w in GroupNames(Builtins) ==> ValidSegment(w)
  {
    assert ValidSegment("Append");
    assert ValidSegment("Apply");
    assert ValidSegment("Plus");
    assert ValidSegment("Times");
    assert ValidSegment("Power");
  }

  lemma AtomAreSegments()
    ensures forall w :: w in GroupNames(Atoms) ==> ValidSegment(w)
  {
    assert ValidSegment("Integer");
    assert ValidSegment("Rational");
    assert ValidSegment("Complex");
    assert ValidSegment("String");
    assert ValidSegment("Real");
    assert ValidSegment("Symbol");
  }

  lemma MapAreSegments()
    ensures forall w :: w in GroupNames(Maps) ==> ValidSegment(w)
  {
    assert ValidSegment("Map");
    assert ValidSegment("MapAll");
    assert ValidSegment("Conjugate");
    assert ValidSegment("Transpose");
    assert ValidSegment("ConjugateTranspose");
  }

  lemma ComparisonAreSegments()
    ensures forall w :: w in GroupNames(Comparisons) ==> ValidSegment(w)
  {
    assert ValidSegment("Equal");
    assert ValidSegment("Unequal");
    assert ValidSegment("Greater");
    assert ValidSegment("Less");
    assert ValidSegment("GreaterEqual");
    assert ValidSegment("LessEqual");
  }

  lemma SameAreSegments()
    ensures forall w :: w in GroupNames(Identities) ==> ValidSegment(w)
  {
    assert ValidSegment("Inequality");
    assert ValidSegment("SameQ");
    assert ValidSegment("UnsameQ");
    assert ValidSegment("PlusMinus");
    assert ValidSegment("MinusPlus");
  }

  lemma AssignAreSegments()
    ensures forall w :: w in GroupNames(Assignments) ==> ValidSegment(w)
  {
    assert ValidSegment("AddTo");
    assert ValidSegment("SubtractFrom");
    assert ValidSegment("TimesBy");
    assert ValidSegment("DivideBy");
    assert ValidSegment("UpSet");
    assert ValidSegment("UpSetDelayed");
  }

  lemma StreamAreSegments()
    ensures forall w :: w in GroupNames(Streams) ==> ValidSegment(w)
  {
    assert ValidSegment("Put");
    assert ValidSegment("PutAppend");
  }

  lemma FormAreSegments()
    ensures forall w :: w in GroupNames(Forms) ==> ValidSegment(w)
  {
    assert ValidSegment("Part");
    assert ValidSegment("List");
    assert ValidSegment("Association");
    assert ValidSegment("CompoundExpression");
    assert ValidSegment("MessageName");
    assert ValidSegment("Get");
  }

  lemma RuleAreSegments()
    ensures forall w :: w in GroupNames(Rules) ==> ValidSegment(w)
  {
    assert ValidSegment("Rule");
    assert ValidSegment("DelayedRule");
    assert ValidSegment("TwoWayRule");
    assert ValidSegment("ReplaceAll");
    assert ValidSegment("ReplaceRepeated");
    assert ValidSegment("Condition");
  }

  lemma PatternOpAreSegments()
    ensures forall w :: w in GroupNames(PatternOps) ==> ValidSegment(w)
  {
    assert ValidSegment("Alternatives");
    assert ValidSegment("PatternTest");
    assert ValidSegment("Repeated");
    assert ValidSegment("RepeatedNull");
    assert ValidSegment("Function");
    assert ValidSegment("Derivative");
  }

  lemma IncrementAreSegments()
    ensures forall w :: w in GroupNames(Increments) ==> ValidSegment(w)
  {
    assert ValidSegment("Increment");
    assert ValidSegment("Decrement");
    assert ValidSegment("PreIncrement");
    assert ValidSegment("PreDecrement");
    assert ValidSegment("Factorial");
    assert ValidSegment("Factorial2");
    assert ValidSegment("Not");
  }

  lemma LogicAreSegments()
    ensures forall w :: w in GroupNames(Logic) ==> ValidSegment(w)
  {
    assert ValidSegment("Or");
    assert ValidSegment("Composition");
    assert ValidSegment("RightComposition");
    assert ValidSegment("StringExpression");
    assert ValidSegment("StringJoin");
  }

  lemma TagAreSegments()
    ensures forall w :: w in GroupNames(Tags) ==> ValidSegment(w)
  {
    assert ValidSegment("TagSet");
    assert ValidSegment("TagSetDelayed");
    assert ValidSegment("TagUnset");
    assert ValidSegment("Unset");
  }

  /** `System`` followed by one valid segment passes the name check. */
  lemma SystemNameValid(w: string)
    requires ValidSegment(w)
    ensures IsValidSymbolName(SystemContext + w)
  {
    assert SystemContext + w == "System" + "`" + w;
    assert ValidSegment("System");
    SegmentHasNoBacktick("System");
    SegmentHasNoBacktick(w);
    QualifiedNameValid("System", w);
  }

  lemma SegmentKeysValid(names: seq<string>)
    requires AllSegments(names)
    ensures forall w :: w in names ==> IsValidSymbolName(SystemContext + w)
  {
    forall w | w in names
      ensures IsValidSymbolName(SystemContext + w)
    {
      SystemNameValid(w);
    }
  }

  /** The table the `SystemSymbols` constructor leaves behind: `GetSymbol`
      on `System`` + each kernel name, which on a table without the name
      stores a fresh record. */
  function SystemTable(names: seq<string>): (m: map<string, SymbolRecord>)
    requires AllSegments(names)
    ensures forall k :: k in m ==> m[k].fullName == k && IsValidSymbolName(k)
    ensures forall w :: w in names ==> SystemContext + w in m
  {
    SegmentKeysValid(names);
    map w | w in names :: SystemContext + w := NewSymbol(SystemContext + w)
  }

  /** OsmiumEngine's constructor with SystemSymbols.Init: context `Global``,
      context path `System``, every name of the generated system list
      interned in `System``;
      `Set` holds its first part and `SetDelayed` all parts, both are
      Protected and SequenceHold, and each has its down-hook. */
  function NewEngine(system: seq<string>): (e: Engine)
    requires AllSegments(system)
    ensures WellKeyed(e) && ValidKeys(e)
    ensures e.context == "Global`" && e.contextPath == ["System`"]
    ensures forall w :: w in system ==> SystemContext + w in e.symbols
    ensures var s := Lookup(e, SetName);
      s.attributes == HoldFirst | Protected | SequenceHold && s.downCode == Some(SetHook) &&
      s.ownValues == [] && s.upValues == [] && s.downValues == []
    ensures var s := Lookup(e, SetDelayedName);
      s.attributes == HoldAll | Protected | SequenceHold && s.downCode == Some(SetDelayedHook) &&
      s.ownValues == [] && s.upValues == [] && s.downValues == []
  {
    var setSym := NewSymbol(SetName).(downCode := Some(SetHook), attributes := HoldFirst | Protected | SequenceHold);
    var setDelayed := NewSymbol(SetDelayedName).(downCode := Some(SetDelayedHook), attributes := HoldAll | Protected | SequenceHold);
    SystemNamesValid();
    assert |SetName| != |SetDelayedName|;
    var interned := Engine(SystemTable(system), "Global`", ["System`"]);
    Store(Store(interned, setSym), setDelayed)
  }

  /** A bare kernel name resolves to the `System`` symbol and leaves the
      table as it is, where a fresh engine would have made `Global`name`. */
  lemma ResolveKernelName(system: seq<string>, w: string)
    requires AllSegments(system) && w in system
    ensures Resolve(NewEngine(system), w) == Ok(Interned(NewEngine(system), SystemContext + w))
  {
    var e := NewEngine(system);
    SegmentHasNoBacktick(w);
    assert e.contextPath[0] + w == SystemContext + w;
    SystemNameValid(w);
  }

  /** `Blank` in a fresh engine is `System`Blank`, so `Blank[]` and `_`
      parse to the same expression. */
  lemma ResolveBlankIsSystem(system: seq<string>)
    requires AllSegments(system) && CoversKernel(system)
    ensures Resolve(NewEngine(system), "Blank") == Ok(Interned(NewEngine(system), SystemContext + "Blank"))
  {
    assert GroupNames(Patterns)[0] == "Blank";
    ResolveKernelName(system, "Blank");
  }

  lemma SystemNamesValid()
    ensures IsValidSymbolName(SetName) && IsValidSymbolName(SetDelayedName)
  {
    SystemNameValid("Set");
    SystemNameValid("SetDelayed");
  }

  /** A valid segment holds no backtick. */
  lemma SegmentHasNoBacktick(w: string)
    requires ValidSegment(w)
    ensures '`' !in w
  {
    forall k | 0 <= k < |w|
      ensures w[k] != '`'
    {
      assert ValidChar(w[k]);
    }
  }

  /** `Set` keeps its right-hand side evaluated (only the first part is
      held); `SetDelayed` holds both. */
  lemma SetHoldAttributes(system: seq<string>)
    requires AllSegments(system)
    ensures var s := Lookup(NewEngine(system), SetName).attributes;
      Has(s, HoldFirst) && !Has(s, HoldRest) && !Has(s, HoldAll) && !Has(s, HoldAllComplete) &&
      Has(s, Protected) && Has(s, SequenceHold)
    ensures var s := Lookup(NewEngine(system), SetDelayedName).attributes;
      Has(s, HoldAll) && Has(s, Protected) && Has(s, SequenceHold) && !Has(s, HoldAllComplete)
  {
  }
}
