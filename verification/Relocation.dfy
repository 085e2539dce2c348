/** x86-64 relocations, in the two's complement arithmetic of the System V AMD64 psABI, section 4.4.1. */
module Relocation {
  import opened Bits
  import opened Collections
  import opened Elf

  // ---- 64-bit wrap-around ----

  /** `x` reduced to 64 bits, in two's complement. */
  function Wrap(x: int): (r: nat)
    ensures r < 0x1_0000_0000_0000_0000
    decreases if x < 0 then 0x1_0000_0000_0000_0000 - x else x
  {
    if x < 0 then Wrap(x + 0x1_0000_0000_0000_0000)
    else if x < 0x1_0000_0000_0000_0000 then x
    else Wrap(x - 0x1_0000_0000_0000_0000)
  }

  function WrappingAdd(a: nat, b: nat): nat
  {
    Wrap(a + b)
  }

  function WrappingSub(a: nat, b: nat): nat
  {
    Wrap(a - b)
  }

  lemma WrapOnce(x: int)
    ensures Wrap(x + 0x1_0000_0000_0000_0000) == Wrap(x)
  {
  }

  /** Values that differ by a multiple of the word size wrap to the same word. */
  lemma {:induction false} WrapSame(x: int, y: int, q: int)
    requires x == y + q * 0x1_0000_0000_0000_0000
    ensures Wrap(x) == Wrap(y)
    decreases if q < 0 then -q else q
  {
    if q > 0 {
      WrapOnce(x - 0x1_0000_0000_0000_0000);
      WrapSame(x - 0x1_0000_0000_0000_0000, y, q - 1);
    } else if q < 0 {
      WrapOnce(x);
      WrapSame(x + 0x1_0000_0000_0000_0000, y, q + 1);
    }
  }

  lemma {:induction false} Carry(x: int) returns (q: int)
    ensures x == Wrap(x) + q * 0x1_0000_0000_0000_0000
    decreases if x < 0 then 0x1_0000_0000_0000_0000 - x else x
  {
    if x < 0 {
      q := Carry(x + 0x1_0000_0000_0000_0000);
      q := q - 1;
    } else if x < 0x1_0000_0000_0000_0000 {
      q := 0;
    } else {
      q := Carry(x - 0x1_0000_0000_0000_0000);
      q := q + 1;
    }
  }

  lemma WrapIsMod(x: int)
    ensures Wrap(x) == x % 0x1_0000_0000_0000_0000
  {
    var q := Carry(x);
  }

  lemma WrapPlus(x: int, c: int)
    ensures Wrap(Wrap(x) + c) == Wrap(x + c)
  {
    var q := Carry(x);
    WrapSame(x + c, Wrap(x) + c, q);
  }

  lemma WrapMinus(c: int, x: int)
    ensures Wrap(c - Wrap(x)) == Wrap(c - x)
  {
    var q := Carry(x);
    WrapSame(c - Wrap(x), c - x, q);
  }

  // ---- little-endian bytes ----

  function LeBytes(value: nat, n: nat): (r: seq<nat>)
    ensures |r| == n && forall i :: 0 <= i < n ==> r[i] < 256
  {
    if n == 0 then [] else [value % 256] + LeBytes(value / 256, n - 1)
  }

  function FromLe(bytes: seq<nat>): nat
  {
    if bytes == [] then 0 else bytes[0] + 256 * FromLe(bytes[1..])
  }

  function Pow256(n: nat): (r: nat)
    ensures r > 0
  {
    if n == 0 then 1 else 256 * Pow256(n - 1)
  }

  lemma Split256(value: nat, m: nat)
    requires m > 0
    ensures value % (256 * m) == value % 256 + 256 * ((value / 256) % m)
  {
    var q, r := value / 256, value % 256;
    var d, s := q / m, q % m;
    assert q == d * m + s;
    assert value == d * (256 * m) + (256 * s + r);
    assert 0 <= 256 * s + r < 256 * m;
    ModUnique(value, 256 * m, d, 256 * s + r);
  }

  /** Writing the first `n` bytes stores the value modulo `256^n`. */
  lemma {:induction false} StoredBytes(value: nat, len: nat, n: nat)
    requires n <= len
    ensures FromLe(LeBytes(value, len)[..n]) == value % Pow256(n)
    decreases n
  {
    if n > 0 {
      StoredBytes(value / 256, len - 1, n - 1);
      assert LeBytes(value, len)[..n][1..] == LeBytes(value / 256, len - 1)[..n - 1];
      Split256(value, Pow256(n - 1));
    }
  }

  // ---- one relocation ----

  datatype RelaType = R64 | PC32 | Relative | R32 | R32S | PC64

  function TypeOf(code: nat): Option<RelaType>
  {
    match code
    case 1 => Some(R64)
    case 2 => Some(PC32)
    case 8 => Some(Relative)
    case 10 => Some(R32)
    case 11 => Some(R32S)
    case 24 => Some(PC64)
    case _ => None
  }

  function ValueLen(t: RelaType): nat
  {
    match t
    case R64 => 8
    case PC32 => 4
    case Relative => 8
    case R32 => 4
    case R32S => 4
    case PC64 => 8
  }

  /** A relocation entry: offset, type code, symbol index and signed addend. */
  datatype Rela = Rela(offset: nat, code: nat, sym: nat, addend: int)

  datatype RelocOp = RelocOp(dst: nat, value: seq<nat>, valueLen: nat)

  function RelocValue(t: RelaType, p: nat, a: nat, loadBase: nat, symValue: nat): nat
  {
    match t
    case R64 => WrappingAdd(symValue, a)
    case PC32 => WrappingSub(WrappingAdd(symValue, a), p)
    case Relative => WrappingAdd(loadBase, a)
    case R32 => WrappingAdd(symValue, a)
    case R32S => WrappingAdd(symValue, a)
    case PC64 => WrappingSub(WrappingAdd(symValue, a), p)
  }

  function ApplyRelocation(rela: Rela, loadBase: nat, symValue: nat): Option<RelocOp>
  {
    var p := WrappingAdd(rela.offset, loadBase);
    var a := Wrap(rela.addend);
    match TypeOf(rela.code)
    case None => None
    case Some(t) => Some(RelocOp(p, LeBytes(RelocValue(t, p, a, loadBase, symValue), 8), ValueLen(t)))
  }

  /** The psABI's formula for the field: S + A, S + A - P or B + A, over the integers. */
  ghost function Formula(t: RelaType, s: int, a: int, p: int, b: int): int
  {
    match t
    case R64 => s + a
    case PC32 => s + a - p
    case Relative => b + a
    case R32 => s + a
    case R32S => s + a
    case PC64 => s + a - p
  }

  /** The field written is the formula's value, cut to the field's width. */
  lemma FieldIsFormula(rela: Rela, loadBase: nat, symValue: nat)
    requires TypeOf(rela.code).Some?
    ensures ApplyRelocation(rela, loadBase, symValue).Some?
    ensures var op := ApplyRelocation(rela, loadBase, symValue).value;
      var t := TypeOf(rela.code).value;
      FromLe(op.value[..op.valueLen]) ==
        Wrap(Formula(t, symValue, rela.addend, rela.offset + loadBase, loadBase)) % Pow256(op.valueLen)
  {
    var t := TypeOf(rela.code).value;
    var p := WrappingAdd(rela.offset, loadBase);
    var a := Wrap(rela.addend);
    var value := RelocValue(t, p, a, loadBase, symValue);
    StoredBytes(value, 8, ValueLen(t));
    ValueIsFormula(t, rela.addend, rela.offset + loadBase, loadBase, symValue);
  }

  lemma ValueIsFormula(t: RelaType, addend: int, place: nat, loadBase: nat, symValue: nat)
    ensures RelocValue(t, Wrap(place), Wrap(addend), loadBase, symValue) ==
      Wrap(Formula(t, symValue, addend, place, loadBase))
  {
    var sum: int, back: int := symValue + Wrap(addend), 0 - (place as int);
    WrapPlus(addend, symValue);
    WrapPlus(addend, loadBase);
    WrapMinus(Wrap(sum), place);
    WrapPlus(sum, back);
    WrapPlus(addend, symValue + back);
  }

  // ---- symbols ----

  datatype Sym = Sym(shndx: nat, value: nat)

  /** Absolute symbols stay, all others move with the image. */
  function SymValue(sym: Sym, loadBase: nat): nat
  {
    if sym.shndx == 0xfff1 then sym.value else WrappingAdd(sym.value, loadBase)
  }

  ghost predicate PcRelative(t: RelaType)
  {
    t.PC32? || t.PC64?
  }

  /** What a relocation against a symbol writes at a given load base. */
  function Field(t: RelaType, rela: Rela, sym: Sym, loadBase: nat): nat
  {
    RelocValue(t, WrappingAdd(rela.offset, loadBase), Wrap(rela.addend), loadBase, SymValue(sym, loadBase))
  }

  /** Against a symbol that moves with the image, a PC-relative field is the same at every load base. */
  lemma PcRelativeStays(t: RelaType, rela: Rela, sym: Sym, loadBase: nat)
    requires PcRelative(t) && sym.shndx != 0xfff1
    ensures Field(t, rela, sym, loadBase) == Field(t, rela, sym, 0)
  {
    FieldWraps(t, rela, sym, loadBase);
    FieldWraps(t, rela, sym, 0);
  }

  /** Against such a symbol, every other field moves by exactly the load base. */
  lemma AbsoluteShifts(t: RelaType, rela: Rela, sym: Sym, loadBase: nat)
    requires !PcRelative(t) && sym.shndx != 0xfff1
    ensures Field(t, rela, sym, loadBase) == WrappingAdd(Field(t, rela, sym, 0), loadBase)
  {
    FieldWraps(t, rela, sym, loadBase);
    FieldWraps(t, rela, sym, 0);
    WrapPlus(Formula(t, sym.value, rela.addend, rela.offset, 0), loadBase);
  }

  /** Against an absolute symbol it is the other way round. */
  lemma AbsoluteSymbolStays(t: RelaType, rela: Rela, sym: Sym, loadBase: nat)
    requires !PcRelative(t) && !t.Relative? && sym.shndx == 0xfff1
    ensures Field(t, rela, sym, loadBase) == Field(t, rela, sym, 0)
  {
    FieldWraps(t, rela, sym, loadBase);
    FieldWraps(t, rela, sym, 0);
  }

  lemma AbsoluteSymbolShifts(t: RelaType, rela: Rela, sym: Sym, loadBase: nat)
    requires PcRelative(t) && sym.shndx == 0xfff1
    ensures Field(t, rela, sym, loadBase) == WrappingSub(Field(t, rela, sym, 0), loadBase)
  {
    var back: int := 0 - (loadBase as int);
    var still: int := Formula(t, sym.value, rela.addend, rela.offset, 0);
    assert Field(t, rela, sym, loadBase) == Wrap(still + back) by {
      FieldWraps(t, rela, sym, loadBase);
    }
    assert Field(t, rela, sym, 0) == Wrap(still) by {
      FieldWraps(t, rela, sym, 0);
    }
    WrapPlus(still, back);
  }

  /** A symbol value may be reduced before it goes into the formula. */
  lemma FormulaWraps(t: RelaType, s: int, a: int, p: int, b: int)
    ensures Wrap(Formula(t, Wrap(s), a, p, b)) == Wrap(Formula(t, s, a, p, b))
  {
    if PcRelative(t) {
      WrapPlus(s, a - p);
    } else if !t.Relative? {
      WrapPlus(s, a);
    }
  }

  lemma FieldWraps(t: RelaType, rela: Rela, sym: Sym, loadBase: nat)
    ensures Field(t, rela, sym, loadBase) ==
      Wrap(Formula(t, if sym.shndx == 0xfff1 then sym.value else sym.value + loadBase,
                   rela.addend, rela.offset + loadBase, loadBase))
  {
    var place := rela.offset + loadBase;
    ValueIsFormula(t, rela.addend, place, loadBase, SymValue(sym, loadBase));
    if sym.shndx != 0xfff1 {
      FormulaWraps(t, sym.value + loadBase, rela.addend, place, loadBase);
    }
  }

  // ---- the iterator ----

  /** What one step of the iterator gives; reading the symbol just past the table is out of bounds. */
  datatype Yield =
    | Op(op: RelocOp) | NoOp | Failed | OutOfBounds

  datatype SymRead = SymFound(sym: Sym) | SymInvalid | SymOutOfBounds

  function ReadSym(symtab: seq<Sym>, i: nat): SymRead
  {
    if i > |symtab| then SymInvalid
    else if i == |symtab| then SymOutOfBounds
    else SymFound(symtab[i])
  }

  /** It happens: with one symbol, index 1 passes the bounds check and is read out of bounds. */
  lemma ReadPastSymbols()
    ensures ReadSym([Sym(1, 0)], 1) == SymOutOfBounds
  {
  }

  class AppliedRelaIterator {
    const loadBase: nat
    const loadSegments: LoadSegments
    const relas: seq<Rela>
    const symtab: Option<seq<Sym>>
    var next: nat

    constructor (loadBase: nat, loadSegments: LoadSegments, relas: seq<Rela>, symtab: Option<seq<Sym>>)
      ensures this.loadBase == loadBase && this.loadSegments == loadSegments
      ensures this.relas == relas && this.symtab == symtab && next == 0
    {
      this.loadBase := loadBase;
      this.loadSegments := loadSegments;
      this.relas := relas;
      this.symtab := symtab;
      next := 0;
    }

    /** The value of the relocation's symbol, `None` if it has none that can be used. */
    method ResolveSymbol(rela: Rela) returns (r: Option<nat>, outOfBounds: bool)
      ensures outOfBounds <==> rela.sym != 0 && symtab.Some? && rela.sym == |symtab.value|
      ensures r.Some? <==> Resolvable(rela)
      ensures r.Some? ==> r.value == if rela.sym == 0 then 0 else SymValue(symtab.value[rela.sym], loadBase)
    {
      r, outOfBounds := None, false;
      if rela.sym == 0 {
        r := Some(0);
        return;
      }
      if symtab.None? {
        return;
      }
      match ReadSym(symtab.value, rela.sym) {
        case SymInvalid =>
        case SymOutOfBounds => outOfBounds := true;
        case SymFound(sym) =>
          if sym.shndx != 0 {
            r := Some(SymValue(sym, loadBase));
          }
      }
    }

    /** Steps through the entries in order; a destination it yields lies in one load segment. */
    method Next() returns (r: Option<Yield>)
      requires next <= |relas| && Sorted(loadSegments.segments)
      modifies this
      ensures r.None? <==> old(next) == |relas|
      ensures next == if r.None? then old(next) else old(next) + 1
      ensures r.Some? && r.value.NoOp? <==> old(next) < |relas| && relas[old(next)].code == 0
      ensures r.Some? && r.value.OutOfBounds? <==> old(next) < |relas| && PastSymbols(relas[old(next)])
      ensures r.Some? && r.value.Op? <==> old(next) < |relas| && Applicable(relas[old(next)])
      ensures r.Some? && r.value.Op? ==> Yields(old(next), r.value.op)
    {
      var cur := next;
      if cur == |relas| {
        return None;
      }
      next := next + 1;
      var rela := relas[cur];
      if rela.code == 0 {
        return Some(NoOp);
      }
      var symValue, outOfBounds := ResolveSymbol(rela);
      if outOfBounds {
        return Some(OutOfBounds);
      }
      if symValue.None? {
        return Some(Failed);
      }
      var applied := ApplyRelocation(rela, loadBase, symValue.value);
      if applied.None? {
        return Some(Failed);
      }
      var end := rela.offset + applied.value.valueLen;
      if end >= 0x1_0000_0000_0000_0000 {
        return Some(Failed);
      }
      var found := loadSegments.LookupVaddrRange(AddrRange(rela.offset, end));
      if found.None? {
        return Some(Failed);
      }
      FoundIsContained(loadSegments.segments, AddrRange(rela.offset, end));
      return Some(Op(applied.value));
    }

    /** The entry names the symbol just past the table. */
    ghost predicate PastSymbols(rela: Rela)
    {
      rela.code != 0 && rela.sym != 0 && symtab.Some? && rela.sym == |symtab.value|
    }

    ghost predicate Resolvable(rela: Rela)
    {
      rela.sym == 0 || (symtab.Some? && rela.sym < |symtab.value| && symtab.value[rela.sym].shndx != 0)
    }

    /** The type is known, the symbol defined, and the destination inside one load segment. */
    ghost predicate Applicable(rela: Rela)
      reads loadSegments
    {
      && TypeOf(rela.code).Some? && Resolvable(rela)
      && var end := rela.offset + ValueLen(TypeOf(rela.code).value);
      && end < 0x1_0000_0000_0000_0000
      && LinearLookup(loadSegments.segments, AddrRange(rela.offset, end)).Some?
    }

    /** Entry `i` was applied with its symbol's value, into one load segment. */
    ghost predicate Yields(i: nat, op: RelocOp)
      reads loadSegments
      requires i < |relas|
    {
      var rela := relas[i];
      && TypeOf(rela.code).Some?
      && Resolvable(rela)
      && Some(op) == ApplyRelocation(rela, loadBase,
          if rela.sym == 0 then 0 else SymValue(symtab.value[rela.sym], loadBase))
      && Held(loadSegments.segments, AddrRange(rela.offset, rela.offset + op.valueLen))
    }
  }

  ghost predicate InSegment(segments: seq<Entry>, k: nat, range: AddrRange)
  {
    k < |segments| && segments[k].range.Contains(range)
  }

  ghost predicate Held(segments: seq<Entry>, range: AddrRange)
  {
    exists k: nat :: InSegment(segments, k, range)
  }

  lemma {:induction false} FoundIsContained(segments: seq<Entry>, range: AddrRange)
    requires LinearLookup(segments, range).Some?
    ensures Held(segments, range)
    decreases |segments|
  {
    if segments[0].range.Contains(range) {
      assert InSegment(segments, 0, range);
    } else {
      FoundIsContained(segments[1..], range);
      var k: nat :| InSegment(segments[1..], k, range);
      assert InSegment(segments, k + 1, range);
    }
  }

  /** Every byte a yielded operation writes is the image of an address of that load segment. */
  lemma WritesIntoSegment(rela: Rela, loadBase: nat, symValue: nat, range: AddrRange, i: nat)
    requires TypeOf(rela.code).Some?
    requires var op := ApplyRelocation(rela, loadBase, symValue).value;
      i < op.valueLen && range.Contains(AddrRange(rela.offset, rela.offset + op.valueLen))
    ensures var op := ApplyRelocation(rela, loadBase, symValue).value;
      && range.begin <= rela.offset + i < range.end
      && Wrap(op.dst + i) == WrappingAdd(rela.offset + i, loadBase)
  {
    var op := ApplyRelocation(rela, loadBase, symValue).value;
    var total := rela.offset + loadBase;
    WrapPlus(total, i);
  }
}
