/** The `Symbol` record: its full name, the three rule lists, the native
    code hooks and the attribute flags.
 */
module Symbols {
  import opened Wrappers
  import opened Values
  import opened Patterns

  /** The `SymbolAttributes` flags, one bit each. */
  const Orderless: bv32 := 1 << 0
  const Flat: bv32 := 1 << 1
  const OneIdentity: bv32 := 1 << 2
  const Listable: bv32 := 1 << 3
  const Constant: bv32 := 1 << 4
  const NumericFunction: bv32 := 1 << 5
  const Protected: bv32 := 1 << 6
  const Locked: bv32 := 1 << 7
  const ReadProtected: bv32 := 1 << 8
  const HoldFirst: bv32 := 1 << 9
  const HoldRest: bv32 := 1 << 10
  const HoldAll: bv32 := 1 << 11
  const HoldAllComplete: bv32 := 1 << 12
  const NHoldFirst: bv32 := 1 << 13
  const NHoldRest: bv32 := 1 << 14
  const NHoldAll: bv32 := 1 << 15
  const SequenceHold: bv32 := 1 << 16
  const Temporary: bv32 := 1 << 17
  const Stub: bv32 := 1 << 18

  /** Every flag, in declaration order. */
  const AllFlags: seq<bv32> := [
    Orderless, Flat, OneIdentity, Listable, Constant, NumericFunction, Protected, Locked,
    ReadProtected, HoldFirst, HoldRest, HoldAll, HoldAllComplete, NHoldFirst, NHoldRest,
    NHoldAll, SequenceHold, Temporary, Stub]

  /** `Enum.HasFlag` for a single-bit flag. */
  predicate Has(attrs: bv32, flag: bv32) {
    attrs & flag == flag
  }

  /** Two different single bits of a 32-bit word share nothing. */
  lemma BitsDisjoint(i: nat, j: nat)
    requires i < 32 && j < 32 && i != j
    ensures ((1 as bv32) << i) & ((1 as bv32) << j) == 0
    ensures (1 as bv32) << j != 0
  {
    BitNonZero(j);
  }

  lemma BitNonZero(j: nat)
    requires j < 32
    ensures (1 as bv32) << j != 0
  {
  }

  /** Flag i is bit i. */
  lemma FlagsAreSingleBits()
    ensures |AllFlags| == 19
    ensures forall i :: 0 <= i < |AllFlags| ==> AllFlags[i] == 1 << i
  {
    forall i | 0 <= i < |AllFlags|
      ensures AllFlags[i] == 1 << i
    {
      if i < 10 {
        assert i in {0, 1, 2, 3, 4, 5, 6, 7, 8, 9};
      } else {
        assert i in {10, 11, 12, 13, 14, 15, 16, 17, 18};
      }
    }
  }

  /** The flags are distinct single bits: flag i is bit i, so an attribute
      set is a bitset and setting one flag never sets another. */
  lemma FlagsAreDistinctBits()
    ensures |AllFlags| == 19
    ensures forall i :: 0 <= i < |AllFlags| ==> AllFlags[i] == 1 << i
    ensures forall i, j :: 0 <= i < |AllFlags| && 0 <= j < |AllFlags| && i != j ==>
      AllFlags[i] & AllFlags[j] == 0 && !Has(AllFlags[i], AllFlags[j])
  {
    FlagsAreSingleBits();
    forall i, j | 0 <= i < |AllFlags| && 0 <= j < |AllFlags| && i != j
      ensures AllFlags[i] & AllFlags[j] == 0 && !Has(AllFlags[i], AllFlags[j])
    {
      BitsDisjoint(i, j);
    }
  }

  /** The native callbacks on expressions (`ExprCodeCallback`) the kernel
      installs as up- and down-hooks.  The builtins are named; `Native`
      stands for any other callback, given by the answers it returns (an
      expression it has no answer for gets `null`). */
  datatype Hook =
    | SetHook
    | SetDelayedHook
    | AndHook
    | AppendHook
    | ApplyHook
    | PlusHook
    | TimesHook
    | PlusSumHook
    | Native(answers: map<Value, (Value, bool)>)

  /** A callback on a symbol value (`OwnCodeCallback`), given by its
      answers; the kernel installs none. */
  datatype OwnHook = OwnHook(answers: map<Value, (Value, bool)>)

  /** Symbol: the full name, OwnValues / OwnCode, UpValues / UpCode,
      DownValues / DownCode, and Attributes.  Rule lists are tried front to
      back. */
  datatype SymbolRecord = SymbolRecord(
    fullName: string,
    ownValues: seq<Rule>,
    ownCode: Option<OwnHook>,
    upValues: seq<Rule>,
    upCode: Option<Hook>,
    downValues: seq<Rule>,
    downCode: Option<Hook>,
    attributes: bv32)

  /** The Symbol constructor: the given full name, empty rule lists, no
      hooks, no attributes. */
  function NewSymbol(fullName: string): (s: SymbolRecord)
    ensures s.fullName == fullName
    ensures s.ownValues == [] && s.upValues == [] && s.downValues == []
    ensures s.ownCode.None? && s.upCode.None? && s.downCode.None?
    ensures forall f :: f in AllFlags ==> !Has(s.attributes, f)
  {
    SymbolRecord(fullName, [], None, [], None, [], None, 0)
  }

  /** Symbol.ToValue: the value that stands for the symbol. */
  function ToValue(s: SymbolRecord): (v: Value)
    ensures v.Sym? && IsAtomic(v) && AtomHead(v) == v
    ensures HeadOf(v) == System("Symbol")
  {
    Sym(s.fullName)
  }

  /** Two symbol values are the same symbol exactly when they come from
      records with the same full name. */
  lemma ToValueIdentity(s: SymbolRecord, t: SymbolRecord)
    ensures ValueEq(ToValue(s), ToValue(t)) <==> s.fullName == t.fullName
  {
  }
}
