/** An assembler for line-number programs. Each instruction has a meaning of its own, as section 6.2.5 of the DWARF 4
    standard gives it; the machine does to the bytes of a program what the program means, and every matrix of rows has
    a program. */
module LineAssembler {
  import opened Options
  import opened Bits
  import opened Leb128
  import opened Sleb128
  import opened LineRows
  import opened LineProgram

  datatype Ins =
    | SpecialRow(operations: nat, lines: int)
    | Copy
    | AdvancePc(operations: nat)
    | AdvanceLine(lines: int)
    | SetFile(file: nat)
    | SetColumn(n: nat)
    | SetIsa(n: nat)
    | Mark(opcode: Byte)
    | ConstAddPc(operations: nat)
    | FixedAdvancePc(bytes: nat)
    | SetAddress(address: nat, size: nat)
    | Discriminator(n: nat)
    | End

  // ---- what an instruction means ----

  /** So many operations further on. */
  function Ahead(i: Info, r: Regs, operations: nat): Regs
    requires InfoOk(i)
  {
    r.(address := (r.address + i.minInstLen * (operations / i.maxOps)) % TWO64)
  }

  function Effect(i: Info, r: Regs, ins: Ins): Regs
    requires InfoOk(i)
  {
    match ins
    case SpecialRow(n, d) => Ahead(i, r, n).(line := (r.line + d) % TWO64)
    case AdvancePc(n) => Ahead(i, r, n)
    case ConstAddPc(n) => Ahead(i, r, n)
    case AdvanceLine(d) => r.(line := (r.line + d) % TWO64)
    case SetFile(f) => r.(file := f)
    case FixedAdvancePc(d) => r.(address := (r.address + d) % TWO64)
    case SetAddress(a, _) => r.(address := a)
    case End => Regs(0, 1, 1)
    case _ => r
  }

  function Shows(i: Info, r: Regs, ins: Ins): seq<Event>
    requires InfoOk(i)
  {
    match ins
    case SpecialRow(_, _) => var r' := Effect(i, r, ins); [Emit(LineRow(r'.address, r'.line, r'.file))]
    case Copy => [Emit(LineRow(r.address, r.line, r.file))]
    case End => [EndSequence(r.address)]
    case _ => []
  }

  // ---- and how it is written ----

  /** How many values so many bytes have. */
  function Values(size: nat): nat { if size == 0 then 1 else 256 * Values(size - 1) }

  /** The low bytes of a number, little-endian. */
  function Little(x: nat, size: nat): (s: seq<Byte>)
    ensures |s| == size
  {
    if size == 0 then [] else [x % 256] + Little(x / 256, size - 1)
  }

  /** The header has the instruction, and its operand can be written. */
  predicate Writable(i: Info, ins: Ins) {
    match ins
    case SpecialRow(n, d) =>
      i.lineBase <= d < i.lineBase + i.lineRange && d - i.lineBase + i.lineRange * n + i.opcodeBase <= 255
    case Copy => i.opcodeBase > 1
    case AdvancePc(n) => i.opcodeBase > 2 && n < TWO64
    case AdvanceLine(d) => i.opcodeBase > 3 && -(HALF as int) <= d < HALF
    case SetFile(f) => i.opcodeBase > 4 && f < TWO64
    case SetColumn(n) => i.opcodeBase > 5 && n < TWO64
    case SetIsa(n) => i.opcodeBase > 12 && n < TWO64
    case Mark(opcode) => i.opcodeBase > opcode && opcode in {6, 7, 10, 11}
    case ConstAddPc(n) => i.opcodeBase > 8 && i.lineRange * n <= 255 - i.opcodeBase < i.lineRange * (n + 1)
    case FixedAdvancePc(d) => i.opcodeBase > 9 && d < 0x10000
    case SetAddress(a, size) => 1 <= size <= 8 && a < Values(size)
    case Discriminator(n) => n < TWO64
    case End => true
  }

  function Code(i: Info, ins: Ins): (s: seq<Byte>)
    requires InfoOk(i) && Writable(i, ins)
    ensures s != []
  {
    match ins
    case SpecialRow(n, d) => SpecialCode(i, n, d)
    case Copy => [1]
    case AdvancePc(n) => [2] + Encode(n)
    case AdvanceLine(d) => [3] + EncodeSigned(d)
    case SetFile(f) => [4] + Encode(f)
    case SetColumn(n) => [5] + Encode(n)
    case SetIsa(n) => [12] + Encode(n)
    case Mark(opcode) => [opcode]
    case ConstAddPc(_) => [8]
    case FixedAdvancePc(d) => [9] + Little(d, 2)
    case SetAddress(a, size) => [0, size + 1, 2] + Little(a, size)
    case Discriminator(n) => [0] + (Encode(1 + |Encode(n)|) + ([4] + Encode(n)))
    case End => [0, 1, 1]
  }

  function SpecialCode(i: Info, n: nat, d: int): seq<Byte>
    requires InfoOk(i) && i.lineBase <= d && d - i.lineBase + i.lineRange * n + i.opcodeBase <= 255
  {
    [d - i.lineBase + i.lineRange * n + i.opcodeBase]
  }

  // ---- the machine does what an instruction means ----

  /** The machine, at the bytes of an instruction, does what the instruction means and goes on behind them. */
  ghost predicate Does(i: Info, prog: seq<Byte>, pos: nat, r: Regs, ins: Ins)
    requires InfoOk(i) && Writable(i, ins) && pos < |prog|
  {
    Instruction(i, prog, pos, r) == Go(pos + |Code(i, ins)|, Effect(i, r, ins), Shows(i, r, ins))
  }

  lemma DoesSpecial(i: Info, prog: seq<Byte>, pos: nat, r: Regs, n: nat, d: int)
    requires InfoOk(i) && Writable(i, SpecialRow(n, d)) && pos < |prog| && [prog[pos]] == Code(i, SpecialRow(n, d))
    ensures Does(i, prog, pos, r, SpecialRow(n, d))
  {
    var adjusted := d - i.lineBase + i.lineRange * n;
    DivUnique(adjusted, i.lineRange, n);
    assert prog[pos] - i.opcodeBase == adjusted;
  }

  lemma DoesPlain(i: Info, prog: seq<Byte>, pos: nat, r: Regs, ins: Ins)
    requires InfoOk(i) && Writable(i, ins) && (ins.Copy? || ins.Mark? || ins.ConstAddPc?)
    requires pos < |prog| && [prog[pos]] == Code(i, ins)
    ensures Does(i, prog, pos, r, ins)
  {
    if ins.ConstAddPc? { DivUnique(255 - i.opcodeBase, i.lineRange, ins.operations); }
  }

  predicate HasNumber(ins: Ins) {
    ins.AdvancePc? || ins.AdvanceLine? || ins.SetFile? || ins.SetColumn? || ins.SetIsa?
  }

  lemma DoesNumber(i: Info, prog: seq<Byte>, pos: nat, r: Regs, ins: Ins, rest: seq<Byte>)
    requires InfoOk(i) && Writable(i, ins) && HasNumber(ins)
    requires pos < |prog| && prog[pos..] == Code(i, ins) + rest
    ensures Does(i, prog, pos, r, ins)
  {
    hide Uleb, Encode, EncodeSigned, SignExtend;
    var number := Code(i, ins)[1..];
    assert prog[pos] == Code(i, ins)[0];
    assert prog[pos + 1..] == number + rest;
    if ins.AdvanceLine? {
      assert number == EncodeSigned(ins.lines);
      Pow2At63();
      SignedRoundTrip(ins.lines, rest);
    } else {
      var x := if ins.AdvancePc? then ins.operations else if ins.SetFile? then ins.file else ins.n;
      assert number == Encode(x);
      assert Pow2(0) == 1;
      RoundTrip(x, rest, 0);
    }
  }

  lemma Pow2At63()
    ensures Pow2(63) == HALF
  {
    Pow2At64();
  }

  lemma {:induction false} LittleRoundTrip(x: nat, size: nat)
    requires x < Values(size)
    ensures Bytes(Little(x, size)) == x
  {
    if size > 0 {
      LittleRoundTrip(x / 256, size - 1);
      assert Little(x, size)[1..] == Little(x / 256, size - 1);
    }
  }

  lemma DoesFixed(i: Info, prog: seq<Byte>, pos: nat, r: Regs, d: nat, rest: seq<Byte>)
    requires InfoOk(i) && Writable(i, FixedAdvancePc(d))
    requires pos < |prog| && prog[pos..] == Code(i, FixedAdvancePc(d)) + rest
    ensures Does(i, prog, pos, r, FixedAdvancePc(d))
  {
    hide Bytes, Little;
    assert Values(2) == 0x10000 by { assert Values(1) == 256; }
    LittleRoundTrip(d, 2);
    assert prog[pos] == 9;
    Inside(prog, pos, 1, 3);
    assert prog[pos + 1..pos + 3] == Little(d, 2);
  }

  lemma Inside(prog: seq<Byte>, pos: nat, a: nat, b: nat)
    requires pos <= |prog| && a <= b <= |prog| - pos
    ensures prog[pos..][a..b] == prog[pos + a..pos + b]
  {
  }

  lemma DoesSetAddress(i: Info, prog: seq<Byte>, pos: nat, r: Regs, a: nat, size: nat, rest: seq<Byte>)
    requires InfoOk(i) && Writable(i, SetAddress(a, size))
    requires pos < |prog| && prog[pos..] == Code(i, SetAddress(a, size)) + rest
    ensures Does(i, prog, pos, r, SetAddress(a, size))
  {
    hide Bytes, Little, Uleb;
    LittleRoundTrip(a, size);
    var s := prog[pos..];
    assert s[0] == 0 && s[1] == size + 1 && s[2] == 2 && s[3..3 + size] == Little(a, size);
    ShortNumber(prog[pos + 1..]);
    Inside(prog, pos, 3, 3 + size);
  }

  lemma {:induction false} NumberLength(x: nat)
    ensures |Encode(x)| <= x / 2 + 1
  {
    if x >= 128 { NumberLength(x / 128); }
  }

  lemma DoesDiscriminator(i: Info, prog: seq<Byte>, pos: nat, r: Regs, n: nat, rest: seq<Byte>)
    requires InfoOk(i) && Writable(i, Discriminator(n))
    requires pos < |prog| && prog[pos..] == Code(i, Discriminator(n)) + rest
    ensures Does(i, prog, pos, r, Discriminator(n))
  {
    hide Uleb, Encode;
    var number := Encode(n);
    var len := Encode(1 + |number|);
    NumberLength(n);
    assert Pow2(0) == 1;
    RoundTrip(1 + |number|, [4] + number + rest, 0);
    RoundTrip(n, [], 0);
    assert number + [] == number;
    DiscriminatorBytes(prog, pos, len, number, rest);
  }

  lemma DiscriminatorBytes(prog: seq<Byte>, pos: nat, len: seq<Byte>, number: seq<Byte>, rest: seq<Byte>)
    requires pos < |prog| && prog[pos..] == [0] + (len + ([4] + number)) + rest
    ensures var p := pos + 1 + |len|;
            && prog[pos] == 0 && prog[pos + 1..] == len + ([4] + number + rest)
            && p + 1 + |number| <= |prog| && prog[p] == 4 && prog[p + 1..p + 1 + |number|] == number
  {
    var s := prog[pos..];
    assert s[0] == 0;
    assert s[1..] == len + ([4] + number + rest);
    assert prog[pos + 1..] == s[1..];
    assert s[1 + |len|] == 4;
    Inside(prog, pos, 2 + |len|, 2 + |len| + |number|);
    assert s[2 + |len|..2 + |len| + |number|] == number;
  }

  lemma DoesEnd(i: Info, prog: seq<Byte>, pos: nat, r: Regs, rest: seq<Byte>)
    requires InfoOk(i) && pos < |prog| && prog[pos..] == Code(i, End) + rest
    ensures Does(i, prog, pos, r, End)
  {
    hide Uleb;
    var s := prog[pos..];
    assert s[0] == 0 && s[1] == 1 && s[2] == 1;
    ShortNumber(prog[pos + 1..]);
  }

  /** The machine does to the bytes of an instruction what the instruction means, whatever follows. */
  lemma DoesIt(i: Info, prog: seq<Byte>, pos: nat, r: Regs, ins: Ins, rest: seq<Byte>)
    requires InfoOk(i) && Writable(i, ins) && pos < |prog| && prog[pos..] == Code(i, ins) + rest
    ensures Does(i, prog, pos, r, ins)
  {
    hide Does;
    match ins
    case SpecialRow(n, d) =>
      assert [prog[pos..][0]] == Code(i, ins);
      DoesSpecial(i, prog, pos, r, n, d);
    case FixedAdvancePc(d) => DoesFixed(i, prog, pos, r, d, rest);
    case SetAddress(a, size) => DoesSetAddress(i, prog, pos, r, a, size, rest);
    case Discriminator(n) => DoesDiscriminator(i, prog, pos, r, n, rest);
    case End => DoesEnd(i, prog, pos, r, rest);
    case Copy =>
      assert [prog[pos..][0]] == Code(i, ins);
      DoesPlain(i, prog, pos, r, ins);
    case Mark(_) =>
      assert [prog[pos..][0]] == Code(i, ins);
      DoesPlain(i, prog, pos, r, ins);
    case ConstAddPc(_) =>
      assert [prog[pos..][0]] == Code(i, ins);
      DoesPlain(i, prog, pos, r, ins);
    case _ => DoesNumber(i, prog, pos, r, ins, rest);
  }

  // ---- programs ----

  predicate AllWritable(i: Info, p: seq<Ins>) { forall k | 0 <= k < |p| :: Writable(i, p[k]) }

  function Assemble(i: Info, p: seq<Ins>): seq<Byte>
    requires InfoOk(i) && AllWritable(i, p)
  {
    if p == [] then [] else Code(i, p[0]) + Assemble(i, p[1..])
  }

  function AllEffects(i: Info, r: Regs, p: seq<Ins>): Regs
    requires InfoOk(i)
    decreases |p|
  {
    if p == [] then r else AllEffects(i, Effect(i, r, p[0]), p[1..])
  }

  function AllShown(i: Info, r: Regs, p: seq<Ins>): seq<Event>
    requires InfoOk(i)
    decreases |p|
  {
    if p == [] then [] else Shows(i, r, p[0]) + AllShown(i, Effect(i, r, p[0]), p[1..])
  }

  /** The machine shows what the program means. */
  lemma {:induction false} Assembled(i: Info, prog: seq<Byte>, pos: nat, r: Regs, p: seq<Ins>)
    requires InfoOk(i) && AllWritable(i, p) && pos <= |prog| && prog[pos..] == Assemble(i, p)
    ensures Events(i, prog, pos, r) == AllShown(i, r, p)
    decreases |p|
  {
    hide Instruction, Code, Effect, Shows, Writable;
    if p != [] {
      var rest := Assemble(i, p[1..]);
      DoesIt(i, prog, pos, r, p[0], rest);
      EventsStep(i, prog, pos, r);
      var pos' := pos + |Code(i, p[0])|;
      assert prog[pos'..] == prog[pos..][|Code(i, p[0])|..] == rest;
      Assembled(i, prog, pos', Effect(i, r, p[0]), p[1..]);
    }
  }

  lemma {:induction false} Joined(i: Info, r: Regs, p: seq<Ins>, q: seq<Ins>)
    requires InfoOk(i)
    ensures AllEffects(i, r, p + q) == AllEffects(i, AllEffects(i, r, p), q)
    ensures AllShown(i, r, p + q) == AllShown(i, r, p) + AllShown(i, AllEffects(i, r, p), q)
    decreases |p|
  {
    hide Effect, Shows;
    if p == [] {
      assert p + q == q;
    } else {
      assert (p + q)[0] == p[0] && (p + q)[1..] == p[1..] + q;
      Joined(i, Effect(i, r, p[0]), p[1..], q);
    }
  }

  lemma One(i: Info, r: Regs, ins: Ins)
    requires InfoOk(i)
    ensures AllEffects(i, r, [ins]) == Effect(i, r, ins) && AllShown(i, r, [ins]) == Shows(i, r, ins)
  {
    assert [ins][1..] == [];
    assert Shows(i, r, ins) + [] == Shows(i, r, ins);
  }

  // ---- a program for every matrix ----

  /** How far it is from `a` to `b`, on 64-bit words. */
  function Distance(a: nat, b: nat): nat { (b - a) % TWO64 }

  function SignedDistance(a: nat, b: nat): int { Signed(Distance(a, b)) }

  lemma Reaches(a: nat, b: nat)
    requires a < TWO64 && b < TWO64
    ensures (a + Distance(a, b)) % TWO64 == b
    ensures -(HALF as int) <= SignedDistance(a, b) < HALF && (a + SignedDistance(a, b)) % TWO64 == b
  {
  }

  /** The operations that take so many bytes, if any do. */
  function Operations(i: Info, bytes: nat): Option<nat>
    requires InfoOk(i)
  {
    if i.minInstLen > 0 && bytes % i.minInstLen == 0 then Some(bytes / i.minInstLen * i.maxOps) else None
  }

  lemma OperationsTake(i: Info, bytes: nat)
    requires InfoOk(i) && Operations(i, bytes).Some?
    ensures i.minInstLen * (Operations(i, bytes).value / i.maxOps) == bytes
  {
    var k := bytes / i.minInstLen;
    DivUnique(k * i.maxOps, i.maxOps, k);
    assert bytes == k * i.minInstLen;
  }

  /** The operations of the last special instruction. */
  function MostOperations(i: Info): nat
    requires InfoOk(i)
  {
    (255 - i.opcodeBase) / i.lineRange
  }

  /** Brings the address to `a` without a row. */
  function ToAddress(i: Info, r: Regs, a: nat): seq<Ins>
    requires InfoOk(i)
  {
    var d := Distance(r.address, a);
    var most := MostOperations(i);
    if d == 0 then []
    else if i.opcodeBase > 8 && d == i.minInstLen * (most / i.maxOps) then [ConstAddPc(most)]
    else if i.opcodeBase > 9 && d < 0x10000 then [FixedAdvancePc(d)]
    else if i.opcodeBase > 2 && Operations(i, d).Some? && Operations(i, d).value < TWO64 then
      [AdvancePc(Operations(i, d).value)]
    else [SetAddress(a, 8)]
  }

  /** Brings the line to `to` without a row. */
  function ToLine(from: nat, to: nat): seq<Ins> {
    if from == to then [] else [AdvanceLine(SignedDistance(from, to))]
  }

  function ToFile(r: Regs, file: nat): seq<Ins> { if r.file == file then [] else [SetFile(file)] }

  /** A row by one special instruction if it fits, and by separate ones otherwise; the file is right already. */
  function ToRow(i: Info, r: Regs, row: LineRow): seq<Ins>
    requires InfoOk(i)
  {
    var n, d := Operations(i, Distance(r.address, row.address)), SignedDistance(r.line, row.line);
    if n.Some? && Writable(i, SpecialRow(n.value, d)) then [SpecialRow(n.value, d)]
    else (ToAddress(i, r, row.address) + ToLine(r.line, row.line)) + [Copy]
  }

  function Plan(i: Info, r: Regs, e: Event): seq<Ins>
    requires InfoOk(i)
  {
    match e
    case Emit(row) => ToFile(r, row.file) + ToRow(i, r.(file := row.file), row)
    case EndSequence(a) => ToAddress(i, r, a) + [End]
  }

  function RegsAfter(e: Event): Regs {
    match e
    case Emit(row) => Regs(row.address, row.line, row.file)
    case EndSequence(_) => Regs(0, 1, 1)
  }

  function PlanAll(i: Info, r: Regs, ev: seq<Event>): seq<Ins>
    requires InfoOk(i)
    decreases |ev|
  {
    if ev == [] then [] else Plan(i, r, ev[0]) + PlanAll(i, RegsAfter(ev[0]), ev[1..])
  }

  /** Words of 64 bits. */
  predicate IsWords(r: Regs) { r.address < TWO64 && r.line < TWO64 && r.file < TWO64 }

  predicate EventOk(e: Event) {
    match e
    case Emit(row) => row.address < TWO64 && row.line < TWO64 && row.file < TWO64
    case EndSequence(a) => a < TWO64
  }

  /** The instructions `p` bring the registers from `r` to `r'` and show `ev`. */
  ghost predicate Takes(i: Info, r: Regs, p: seq<Ins>, r': Regs, ev: seq<Event>)
    requires InfoOk(i)
  {
    AllWritable(i, p) && AllEffects(i, r, p) == r' && AllShown(i, r, p) == ev
  }

  lemma Then(i: Info, r: Regs, p: seq<Ins>, r': Regs, ev: seq<Event>, q: seq<Ins>, r'': Regs, ev': seq<Event>)
    requires InfoOk(i) && Takes(i, r, p, r', ev) && Takes(i, r', q, r'', ev')
    ensures Takes(i, r, p + q, r'', ev + ev')
  {
    Joined(i, r, p, q);
  }

  lemma TakesOne(i: Info, r: Regs, ins: Ins)
    requires InfoOk(i) && Writable(i, ins)
    ensures Takes(i, r, [ins], Effect(i, r, ins), Shows(i, r, ins))
  {
    One(i, r, ins);
  }

  lemma EightBytes()
    ensures Values(8) == TWO64
  {
    assert Values(2) == 0x10000;
    assert Values(4) == 0x1_0000_0000;
    assert Values(6) == 0x1_0000_0000_0000;
  }

  /** A single instruction that brings the address to `a`. */
  lemma ToAddressMoves(i: Info, r: Regs, a: nat)
    requires InfoOk(i) && IsWords(r) && a < TWO64 && ToAddress(i, r, a) != []
    ensures var p := ToAddress(i, r, a);
            && |p| == 1 && Writable(i, p[0]) && Shows(i, r, p[0]) == []
            && Effect(i, r, p[0]) == r.(address := a)
  {
    var d := Distance(r.address, a);
    Reaches(r.address, a);
    if Operations(i, d).Some? { OperationsTake(i, d); }
    EightBytes();
    if i.opcodeBase > 8 { MostFits(i); }
    hide Values, Distance, Operations, MostOperations;
  }

  lemma MostFits(i: Info)
    requires InfoOk(i) && i.opcodeBase > 8
    ensures Writable(i, ConstAddPc(MostOperations(i)))
  {
    Quotient(255 - i.opcodeBase, i.lineRange);
  }

  lemma ToAddressTakes(i: Info, r: Regs, a: nat)
    requires InfoOk(i) && IsWords(r) && a < TWO64
    ensures Takes(i, r, ToAddress(i, r, a), r.(address := a), [])
  {
    var p := ToAddress(i, r, a);
    if p == [] {
      Reaches(r.address, a);
      assert AllWritable(i, []);
    } else {
      ToAddressMoves(i, r, a);
      hide ToAddress, Writable, Effect, Shows;
      assert p == [p[0]];
      TakesOne(i, r, p[0]);
    }
  }

  lemma ToLineTakes(i: Info, r: Regs, line: nat)
    requires InfoOk(i) && i.opcodeBase > 3 && IsWords(r) && line < TWO64
    ensures Takes(i, r, ToLine(r.line, line), r.(line := line), [])
  {
    Reaches(r.line, line);
    if r.line != line { TakesOne(i, r, AdvanceLine(SignedDistance(r.line, line))); }
  }

  lemma ToRowTakes(i: Info, r: Regs, row: LineRow)
    requires InfoOk(i) && i.opcodeBase > 3 && IsWords(r) && EventOk(Emit(row)) && r.file == row.file
    ensures Takes(i, r, ToRow(i, r, row), Regs(row.address, row.line, row.file), [Emit(row)])
  {
    hide ToAddress, ToLine, Takes, Distance, SignedDistance, Operations;
    var n, d := Operations(i, Distance(r.address, row.address)), SignedDistance(r.line, row.line);
    var r1 := r.(address := row.address);
    var r2 := r1.(line := row.line);
    if n.Some? && Writable(i, SpecialRow(n.value, d)) {
      Reaches(r.address, row.address);
      Reaches(r.line, row.line);
      OperationsTake(i, Distance(r.address, row.address));
      TakesOne(i, r, SpecialRow(n.value, d));
    } else {
      ToAddressTakes(i, r, row.address);
      ToLineTakes(i, r1, row.line);
      TakesOne(i, r2, Copy);
      assert [] + [Emit(row)] == [Emit(row)];
      Then(i, r, ToAddress(i, r, row.address), r1, [], ToLine(r.line, row.line), r2, []);
      Then(i, r, ToAddress(i, r, row.address) + ToLine(r.line, row.line), r2, [], [Copy], r2, [Emit(row)]);
    }
  }

  lemma PlanTakes(i: Info, r: Regs, e: Event)
    requires InfoOk(i) && i.opcodeBase > 4 && IsWords(r) && EventOk(e)
    ensures Takes(i, r, Plan(i, r, e), RegsAfter(e), [e])
  {
    hide ToAddress, ToRow, Takes;
    assert [] + [e] == [e];
    match e
    case Emit(row) =>
      var r1 := r.(file := row.file);
      ToFileTakes(i, r, row.file);
      ToRowTakes(i, r1, row);
      Then(i, r, ToFile(r, row.file), r1, [], ToRow(i, r1, row), RegsAfter(e), [e]);
    case EndSequence(a) =>
      var r1 := r.(address := a);
      ToAddressTakes(i, r, a);
      TakesOne(i, r1, End);
      Then(i, r, ToAddress(i, r, a), r1, [], [End], RegsAfter(e), [e]);
  }

  lemma ToFileTakes(i: Info, r: Regs, file: nat)
    requires InfoOk(i) && i.opcodeBase > 4 && file < TWO64
    ensures Takes(i, r, ToFile(r, file), r.(file := file), [])
  {
    if r.file != file { TakesOne(i, r, SetFile(file)); }
  }

  lemma {:induction false} PlanAllTakes(i: Info, r: Regs, ev: seq<Event>)
    requires InfoOk(i) && i.opcodeBase > 4 && IsWords(r) && forall e | e in ev :: EventOk(e)
    ensures AllWritable(i, PlanAll(i, r, ev)) && AllShown(i, r, PlanAll(i, r, ev)) == ev
    decreases |ev|
  {
    hide Plan, AllShown, AllEffects;
    if ev == [] {
      assert AllShown(i, r, []) == [] by { NoneShown(i, r); }
    } else {
      PlanTakes(i, r, ev[0]);
      PlanAllTakes(i, RegsAfter(ev[0]), ev[1..]);
      Joined(i, r, Plan(i, r, ev[0]), PlanAll(i, RegsAfter(ev[0]), ev[1..]));
      assert [ev[0]] + ev[1..] == ev;
    }
  }

  lemma NoneShown(i: Info, r: Regs)
    requires InfoOk(i)
    ensures AllShown(i, r, []) == []
  {
  }

  /** What shows a list of sequences. */
  function Flat(seqs: seq<Sequence>): seq<Event> { if seqs == [] then [] else FlatOne(seqs[0]) + Flat(seqs[1..]) }

  function FlatOne(s: Sequence): seq<Event> {
    FlatRows(s.rows) + (if s.end.Some? then [EndSequence(s.end.value)] else [])
  }

  function FlatRows(rows: seq<LineRow>): seq<Event> { seq(|rows|, k requires 0 <= k < |rows| => Emit(rows[k])) }

  /** A matrix of 64-bit words in which every sequence but the last is ended, and the last has a row if it is not. */
  predicate IsMatrix(seqs: seq<Sequence>) {
    && (forall k | 0 <= k < |seqs| - 1 :: seqs[k].end.Some?)
    && (forall k | 0 <= k < |seqs| :: seqs[k].end.Some? || seqs[k].rows != [])
    && (forall k | 0 <= k < |seqs| :: forall e | e in FlatOne(seqs[k]) :: EventOk(e))
  }

  lemma {:induction false} RowsCollect(rows: seq<LineRow>, ev: seq<Event>, before: seq<LineRow>)
    ensures Sequences(FlatRows(rows) + ev, before) == Sequences(ev, before + rows)
    decreases |rows|
  {
    if rows == [] {
      assert FlatRows(rows) + ev == ev && before + rows == before;
    } else {
      var all := FlatRows(rows) + ev;
      assert all[0] == Emit(rows[0]) && all[1..] == FlatRows(rows[1..]) + ev;
      RowsCollect(rows[1..], ev, before + [rows[0]]);
      assert before + [rows[0]] + rows[1..] == before + rows;
    }
  }

  lemma {:induction false} FlatBack(seqs: seq<Sequence>)
    requires IsMatrix(seqs)
    ensures Sequences(Flat(seqs), []) == seqs && forall e | e in Flat(seqs) :: EventOk(e)
    decreases |seqs|
  {
    hide FlatRows, EventOk;
    if seqs != [] {
      var s, rest := seqs[0], Flat(seqs[1..]);
      var tail := (if s.end.Some? then [EndSequence(s.end.value)] else []) + rest;
      FlatBack(seqs[1..]);
      assert Flat(seqs) == FlatRows(s.rows) + tail;
      RowsCollect(s.rows, tail, []);
      assert [] + s.rows == s.rows;
      if s.end.Some? {
        assert tail[1..] == rest;
      } else {
        assert seqs[1..] == [] && tail == [];
      }
      assert seqs == [s] + seqs[1..];
    }
  }

  /** A program for the matrix. */
  function ProgramFor(i: Info, seqs: seq<Sequence>): seq<Byte>
    requires InfoOk(i) && i.opcodeBase > 4 && IsMatrix(seqs)
  {
    FlatBack(seqs);
    PlanAllTakes(i, Regs(0, 1, 1), Flat(seqs));
    Assemble(i, PlanAll(i, Regs(0, 1, 1), Flat(seqs)))
  }

  /** Every matrix has a program, under every header with the instructions up to `set_file`, and that program gives the
      matrix back. */
  lemma MatrixRoundTrip(i: Info, seqs: seq<Sequence>)
    requires InfoOk(i) && i.opcodeBase > 4 && IsMatrix(seqs)
    ensures Matrix(i, ProgramFor(i, seqs)) == seqs
  {
    hide Assemble, PlanAll, Flat, IsMatrix, Events, AllShown;
    FlatBack(seqs);
    PlanAllTakes(i, START, Flat(seqs));
    var p := PlanAll(i, START, Flat(seqs));
    assert ProgramFor(i, seqs)[0..] == Assemble(i, p);
    Assembled(i, ProgramFor(i, seqs), 0, START, p);
  }
}
