/** The line-number machine: decoding a program byte by byte and stopping as soon as the row is known. */
module LineProgram {
  import opened Options
  import opened Bits
  import opened Leb128
  import opened Sleb128
  import opened LineRows

  datatype Info = Info(minInstLen: nat, maxOps: nat, lineBase: int, lineRange: nat, opcodeBase: nat)

  predicate InfoOk(i: Info) {
    && i.minInstLen < 256 && 0 < i.maxOps < 256 && -128 <= i.lineBase < 128 && 0 < i.lineRange < 256
    && 0 < i.opcodeBase < 256
  }

  datatype Regs = Regs(address: nat, line: nat, file: nat)

  const START: Regs := Regs(0, 1, 1)

  /** One instruction: the machine gives up, or goes on at `pos`, having shown the events (none or one). */
  datatype Outcome = Stop | Go(pos: nat, regs: Regs, events: seq<Event>)

  /** The bytes that so many operations take. */
  function Scaled(i: Info, operation: nat): nat
    requires InfoOk(i)
  {
    i.minInstLen * (operation / i.maxOps)
  }

  function Advance(i: Info, r: Regs, operation: nat): Regs
    requires InfoOk(i)
  {
    r.(address := (r.address + Scaled(i, operation)) % TWO64)
  }

  function Wrap(x: int): nat { x % TWO64 }

  function AddLine(r: Regs, delta: int): Regs { r.(line := Wrap(r.line + delta)) }

  function RowOf(r: Regs): Event { Emit(LineRow(r.address, r.line, r.file)) }

  /** Little-endian bytes. */
  function Bytes(s: seq<Byte>): nat { if s == [] then 0 else s[0] + 256 * Bytes(s[1..]) }

  /** An extended instruction, its length at `pos`. */
  function Extended(prog: seq<Byte>, pos: nat, r: Regs): (o: Outcome)
    requires pos <= |prog|
    ensures o.Go? ==> pos < o.pos <= |prog|
  {
    match Uleb(prog[pos..], 0)
    case Bad => Stop
    case Good(len, n) =>
      var p := pos + n;
      if len == 0 || len > |prog| - p then Stop
      else if prog[p] == 1 then Go(p + len, START, [EndSequence(r.address)])
      else if prog[p] == 2 then
        var size := (len - 1) % 256;
        if size == 0 || size > 8 then Stop else Go(p + len, r.(address := Bytes(prog[p + 1..p + 1 + size])), [])
      else if prog[p] == 4 then
        if Uleb(prog[p + 1..p + len], 0).Bad? then Stop else Go(p + len, r, [])
      else Stop
  }

  predicate TakesNumber(opcode: Byte) { opcode == 2 || opcode == 3 || opcode == 4 || opcode == 5 || opcode == 12 }

  /** An instruction with a number of `n` bytes as its operand; some are of no use here. */
  function WithNumber(i: Info, opcode: Byte, r: Regs, v: nat, n: nat): Regs
    requires InfoOk(i) && n > 0
  {
    if opcode == 2 then Advance(i, r, v)
    else if opcode == 3 then AddLine(r, SignExtend(v, 7 * n))
    else if opcode == 4 then r.(file := v)
    else r
  }

  /** A standard instruction other than 0, its operands at `pos`. */
  function Standard(i: Info, prog: seq<Byte>, opcode: Byte, pos: nat, r: Regs): (o: Outcome)
    requires InfoOk(i) && pos <= |prog|
    ensures o.Go? ==> pos <= o.pos <= |prog|
  {
    if opcode == 1 then Go(pos, r, [RowOf(r)])
    else if TakesNumber(opcode) then
      match Uleb(prog[pos..], 0)
      case Bad => Stop
      case Good(v, n) => Go(pos + n, WithNumber(i, opcode, r, v, n), [])
    else if opcode == 6 || opcode == 7 || opcode == 10 || opcode == 11 then Go(pos, r, [])
    else if opcode == 8 then Go(pos, Advance(i, r, ConstAdd(i)), [])
    else if opcode == 9 then
      if |prog| - pos < 2 then Stop
      else Go(pos + 2, r.(address := (r.address + Bytes(prog[pos..pos + 2])) % TWO64), [])
    else Stop
  }

  function ConstAdd(i: Info): nat
    requires InfoOk(i)
  {
    (255 - i.opcodeBase) / i.lineRange
  }

  /** A special instruction moves address and line at once and emits a row. */
  function Special(i: Info, r: Regs, adjusted: nat): Regs
    requires InfoOk(i)
  {
    AddLine(Advance(i, r, adjusted / i.lineRange), i.lineBase + adjusted % i.lineRange)
  }

  function Instruction(i: Info, prog: seq<Byte>, pos: nat, r: Regs): (o: Outcome)
    requires InfoOk(i) && pos < |prog|
    ensures o.Go? ==> pos < o.pos <= |prog|
  {
    var opcode := prog[pos];
    if opcode >= i.opcodeBase then
      var r' := Special(i, r, opcode - i.opcodeBase);
      Go(pos + 1, r', [RowOf(r')])
    else if opcode == 0 then Extended(prog, pos + 1, r)
    else Standard(i, prog, opcode, pos + 1, r)
  }

  /** Everything the program shows from `pos` on. */
  function Events(i: Info, prog: seq<Byte>, pos: nat, r: Regs): seq<Event>
    requires InfoOk(i) && pos <= |prog|
    decreases |prog| - pos
  {
    if pos == |prog| then []
    else match Instruction(i, prog, pos, r)
      case Stop => []
      case Go(p, r', ev) => ev + Events(i, prog, p, r')
  }

  /** The full row matrix of a program. */
  function Matrix(i: Info, prog: seq<Byte>): seq<Sequence>
    requires InfoOk(i)
  {
    Sequences(Events(i, prog, 0, START), [])
  }

  // ---- the machine ----

  /** Little-endian bytes read into a word. */
  method ReadBytes(prog: seq<Byte>, p: nat, end: nat, count: nat) returns (ok: bool, value: nat)
    requires p <= end <= |prog|
    ensures ok <==> end - p >= count
    ensures ok ==> value == Bytes(prog[p..p + count])
  {
    if end - p < count {
      return false, 0;
    }
    value := 0;
    var k := count;
    while k > 0
      invariant 0 <= k <= count && value == Bytes(prog[p + k..p + count])
    {
      k := k - 1;
      assert prog[p + k..p + count][1..] == prog[p + k + 1..p + count];
      value := prog[p + k] + 256 * value;
    }
    return true, value;
  }

  /** Runs the extended instruction at `p`: returns false to give up, and `ended` if it ends a sequence. */
  method RunExtended(prog: seq<Byte>, start: nat, r: Regs) returns (ok: bool, p: nat, r': Regs, ended: bool)
    requires start <= |prog|
    ensures match Extended(prog, start, r)
            case Stop => !ok
            case Go(q, rr, ev) => ok && p == q && r' == rr && ev == (if ended then [EndSequence(r.address)] else [])
  {
    hide Uleb;
    var len, shift;
    r', ended := r, false;
    assert prog[start..|prog|] == prog[start..];
    ok, len, shift, p := ReadUleb(prog, start, |prog|);
    if !ok {
      return false, p, r, false;
    }
    if len == 0 || len > |prog| - p {
      return false, p, r, false;
    }
    var next := p + len;
    var sub := prog[p];
    p := p + 1;
    if sub == 1 {
      return true, next, START, true;
    } else if sub == 2 {
      var size := (len - 1) % 256;
      if size == 0 || size > 8 {
        return false, p, r, false;
      }
      var fits, address := ReadBytes(prog, p, next, size);
      if !fits {
        return false, p, r, false;
      }
      return true, next, r.(address := address), false;
    } else if sub == 4 {
      var read, _, _, _ := ReadUleb(prog, p, next);
      if !read {
        return false, p, r, false;
      }
      return true, next, r, false;
    }
    return false, p, r, false;
  }

  /** Runs the standard instruction `opcode`, with its operands at `start`; `row` says that it emits one. */
  method RunStandard(i: Info, prog: seq<Byte>, opcode: Byte, start: nat, r: Regs)
      returns (ok: bool, p: nat, r': Regs, row: bool)
    requires InfoOk(i) && start <= |prog|
    ensures match Standard(i, prog, opcode, start, r)
            case Stop => !ok
            case Go(q, rr, ev) => ok && p == q && r' == rr && ev == (if row then [RowOf(rr)] else [])
  {
    hide Uleb, SignExtend, Scaled, ConstAdd;
    p, r', row := start, r, false;
    assert prog[start..|prog|] == prog[start..];
    if opcode == 1 {
      return true, p, r, true;
    } else if opcode == 2 || opcode == 4 || opcode == 5 || opcode == 12 {
      var v, shift;
      ok, v, shift, p := ReadUleb(prog, start, |prog|);
      if !ok {
        return false, p, r, false;
      }
      if opcode == 2 {
        r' := r.(address := (r.address + Scaled(i, v)) % TWO64);
      } else if opcode == 4 {
        r' := r.(file := v);
      }
      return true, p, r', false;
    } else if opcode == 3 {
      var delta;
      ok, delta, p := ReadSleb(prog, start, |prog|);
      if !ok {
        return false, p, r, false;
      }
      return true, p, r.(line := Wrap(r.line + delta)), false;
    } else if opcode == 8 {
      return true, p, r.(address := (r.address + Scaled(i, ConstAdd(i))) % TWO64), false;
    } else if opcode == 9 {
      var fits, v := ReadBytes(prog, p, |prog|, 2);
      if !fits {
        return false, p, r, false;
      }
      return true, p + 2, r.(address := (r.address + v) % TWO64), false;
    } else if opcode == 6 || opcode == 7 || opcode == 10 || opcode == 11 {
      return true, p, r, false;
    }
    return false, p, r, false;
  }

  /** Runs the program until the row for `pc` is known, the machine gives up or the program ends. What it finds is the
      row of the first stop, and that is the row the matrix gives exactly where the matrix bears the stop out. */
  method Find(i: Info, prog: seq<Byte>, pc: nat) returns (found: Option<(nat, nat)>)
    requires InfoOk(i)
    ensures found == RowAt(Matrix(i, prog), WatchAt(Matrix(i, prog), pc))
    ensures WatchAt(Matrix(i, prog), pc) == LookupAt(Matrix(i, prog), pc) <==> InStep(Matrix(i, prog), pc)
    ensures WellFormed(Matrix(i, prog)) ==> found == RowAt(Matrix(i, prog), LookupAt(Matrix(i, prog), pc))
  {
    hide Extended, Standard, Special, Instruction, Events, Watch, WellFormed, Matrix, WatchAt, LookupAt;
    hide RowAt, InStep;
    MachineFindsRow(i, prog, pc);
    WatchNothing(pc);
    var p: nat, r: Regs := 0, START;
    var candLine, candFile := 0, 0;
    while p < |prog|
      invariant p <= |prog|
      invariant Watch(Events(i, prog, p, r), pc, candLine, candFile) == Watch(Events(i, prog, 0, START), pc, 0, 0)
      decreases |prog| - p
    {
      InstructionIs(i, prog, p, r);
      EventsStep(i, prog, p, r);
      ghost var o := Instruction(i, prog, p, r);
      WatchNothing(pc);
      if o.Go? { WatchStep(o.events, Events(i, prog, o.pos, o.regs), pc, candLine, candFile); }
      var opcode := prog[p];
      var row, ended := false, false;
      var before := r.address;
      if opcode >= i.opcodeBase {
        p, r, row := p + 1, Special(i, r, opcode - i.opcodeBase), true;
      } else if opcode == 0 {
        var ok;
        ok, p, r, ended := RunExtended(prog, p + 1, r);
        if !ok {
          return None;
        }
      } else {
        var ok;
        ok, p, r, row := RunStandard(i, prog, opcode, p + 1, r);
        if !ok {
          return None;
        }
      }
      if row {
        if r.address > pc {
          if candFile != 0 {
            return Some((candLine, candFile));
          }
        } else {
          candLine, candFile := r.line, r.file;
        }
      } else if ended {
        if pc < before && candFile != 0 {
          return Some((candLine, candFile));
        }
        candFile := 0;
      }
    }
    EventsDone(i, prog, r);
    return None;
  }

  lemma WatchNothing(pc: nat)
    ensures forall line: nat, file: nat :: Watch([], pc, line, file) == None
  {
  }

  lemma EventsDone(i: Info, prog: seq<Byte>, r: Regs)
    requires InfoOk(i)
    ensures Events(i, prog, |prog|, r) == []
  {
  }

  /** Watching one more event. */
  lemma WatchStep(ev: seq<Event>, rest: seq<Event>, pc: nat, line: nat, file: nat)
    requires |ev| <= 1
    ensures ev == [] ==> Watch(ev + rest, pc, line, file) == Watch(rest, pc, line, file)
    ensures ev != [] && ev[0].Emit? ==>
              var r := ev[0].row;
              Watch(ev + rest, pc, line, file) ==
                if r.address > pc then if file != 0 then Some((line, file)) else Watch(rest, pc, line, file)
                else Watch(rest, pc, r.line, r.file)
    ensures ev != [] && ev[0].EndSequence? ==>
              Watch(ev + rest, pc, line, file) ==
                if pc < ev[0].address && file != 0 then Some((line, file)) else Watch(rest, pc, line, 0)
  {
    if ev == [] {
      assert ev + rest == rest;
    } else {
      assert (ev + rest)[0] == ev[0] && (ev + rest)[1..] == rest;
    }
  }

  lemma InstructionIs(i: Info, prog: seq<Byte>, p: nat, r: Regs)
    requires InfoOk(i) && p < |prog|
    ensures Instruction(i, prog, p, r) ==
            if prog[p] >= i.opcodeBase then
              Go(p + 1, Special(i, r, prog[p] - i.opcodeBase), [RowOf(Special(i, r, prog[p] - i.opcodeBase))])
            else if prog[p] == 0 then Extended(prog, p + 1, r)
            else Standard(i, prog, prog[p], p + 1, r)
  {
  }

  lemma EventsStep(i: Info, prog: seq<Byte>, p: nat, r: Regs)
    requires InfoOk(i) && p < |prog|
    ensures match Instruction(i, prog, p, r)
            case Stop => Events(i, prog, p, r) == []
            case Go(q, r', ev) => p < q <= |prog| && |ev| <= 1 && Events(i, prog, p, r) == ev + Events(i, prog, q, r')
  {
  }

  /** Watching the events of a program finds the row of the first stop in its matrix; that is the row the matrix gives
      if and only if the matrix bears the stop out, as it does for every program whose sequences ascend and whose file
      registers are never 0. */
  lemma MachineFindsRow(i: Info, prog: seq<Byte>, pc: nat)
    requires InfoOk(i)
    ensures var seqs := Matrix(i, prog);
            && Watch(Events(i, prog, 0, START), pc, 0, 0) == RowAt(seqs, WatchAt(seqs, pc))
            && (WatchAt(seqs, pc) == LookupAt(seqs, pc) <==> InStep(seqs, pc))
            && (WellFormed(seqs) ==> InStep(seqs, pc))
  {
    WatchIsLookup(Events(i, prog, 0, START), pc);
  }

  // ---- programs on which the machine does not find the row of the matrix ----

  /** An opcode of 13 or more advances the address by what it is above 13, and the line by one. */
  const SIMPLE: Info := Info(1, 1, 1, 1, 13)

  /** Rows at 0 and 9, the address set back to 4 for a third row, and the end at 12. */
  const DESCENDING: seq<Byte> := [13, 22, 0, 2, 2, 4, 13, 9, 8, 0, 0, 1, 1]

  /** A row at 0 with file 0, and the end at 12. */
  const FILE_ZERO: seq<Byte> := [4, 0, 13, 9, 12, 0, 0, 1, 1]

  lemma ShortNumber(s: seq<Byte>)
    requires s != [] && s[0] < 128
    ensures Uleb(s, 0) == Good(s[0], 1)
  {
    assert Pow2(0) == 1;
  }

  /** A special instruction of a simple program. */
  lemma SpecialStep(prog: seq<Byte>, pos: nat, r: Regs)
    requires pos < |prog| && prog[pos] >= 13 && r.address < 100 && r.line < 100
    ensures var r' := Regs(r.address + prog[pos] - 13, r.line + 1, r.file);
            Events(SIMPLE, prog, pos, r) == [RowOf(r')] + Events(SIMPLE, prog, pos + 1, r')
  {
    hide Events;
    var a := prog[pos] - 13;
    assert a / 1 == a && a % 1 == 0;
    assert Special(SIMPLE, r, a) == Regs(r.address + a, r.line + 1, r.file);
    EventsStep(SIMPLE, prog, pos, r);
  }

  /** Setting the address to a byte. */
  lemma SetAddressStep(prog: seq<Byte>, pos: nat, r: Regs)
    requires pos + 4 <= |prog| && prog[pos] == 0 && prog[pos + 1] == 2 && prog[pos + 2] == 2
    ensures Events(SIMPLE, prog, pos, r) == Events(SIMPLE, prog, pos + 4, r.(address := prog[pos + 3]))
  {
    ShortNumber(prog[pos + 1..]);
    assert prog[pos + 3..pos + 4] == [prog[pos + 3]];
    assert Bytes([prog[pos + 3]]) == prog[pos + 3];
    EventsStep(SIMPLE, prog, pos, r);
  }

  lemma SmallPair(prog: seq<Byte>, p: nat)
    requires p + 2 <= |prog| && prog[p + 1] == 0
    ensures Bytes(prog[p..p + 2]) == prog[p]
  {
    assert prog[p..p + 2] == [prog[p], 0];
    assert [prog[p], 0][1..] == [0];
    assert Bytes([0]) == 0;
  }

  /** Advancing the address by a small number. */
  lemma FixedStep(prog: seq<Byte>, pos: nat, r: Regs)
    requires pos + 3 <= |prog| && prog[pos] == 9 && prog[pos + 2] == 0 && r.address < 100
    ensures Events(SIMPLE, prog, pos, r) == Events(SIMPLE, prog, pos + 3, r.(address := r.address + prog[pos + 1]))
  {
    hide Events, Bytes;
    SmallPair(prog, pos + 1);
    NoWrap(r.address + prog[pos + 1], TWO64);
    EventsStep(SIMPLE, prog, pos, r);
  }

  lemma SetFileStep(prog: seq<Byte>, pos: nat, r: Regs)
    requires pos + 2 <= |prog| && prog[pos] == 4 && prog[pos + 1] < 128
    ensures Events(SIMPLE, prog, pos, r) == Events(SIMPLE, prog, pos + 2, r.(file := prog[pos + 1]))
  {
    ShortNumber(prog[pos + 1..]);
    EventsStep(SIMPLE, prog, pos, r);
  }

  /** Ending a sequence at the end of the program. */
  lemma EndStep(prog: seq<Byte>, pos: nat, r: Regs)
    requires pos + 3 == |prog| && prog[pos] == 0 && prog[pos + 1] == 1 && prog[pos + 2] == 1
    ensures Events(SIMPLE, prog, pos, r) == [EndSequence(r.address)]
  {
    ShortNumber(prog[pos + 1..]);
    EventsStep(SIMPLE, prog, pos, r);
    EventsDone(SIMPLE, prog, START);
  }

  lemma DescendingMatrix()
    ensures Matrix(SIMPLE, DESCENDING) ==
            [Sequence([LineRow(0, 2, 1), LineRow(9, 3, 1), LineRow(4, 4, 1)], Some(12))]
  {
    hide Events, Instruction, Sequences;
    var p := DESCENDING;
    SpecialStep(p, 0, START);
    SpecialStep(p, 1, Regs(0, 2, 1));
    SetAddressStep(p, 2, Regs(9, 3, 1));
    SpecialStep(p, 6, Regs(4, 3, 1));
    FixedStep(p, 7, Regs(4, 4, 1));
    EndStep(p, 10, Regs(12, 4, 1));
    var a, b, c := LineRow(0, 2, 1), LineRow(9, 3, 1), LineRow(4, 4, 1);
    assert Events(SIMPLE, p, 0, START) == [Emit(a)] + ([Emit(b)] + ([Emit(c)] + [EndSequence(12)]));
    MoreRows(a, [Emit(b)] + ([Emit(c)] + [EndSequence(12)]), []);
    MoreRows(b, [Emit(c)] + [EndSequence(12)], [a]);
    MoreRows(c, [EndSequence(12)], [a, b]);
    LastEnd(12, [a, b, c]);
    assert [] + [a] == [a] && [a] + [b] == [a, b] && [a, b] + [c] == [a, b, c];
  }

  lemma FileZeroMatrix()
    ensures Matrix(SIMPLE, FILE_ZERO) == [Sequence([LineRow(0, 2, 0)], Some(12))]
  {
    hide Events, Instruction, Sequences;
    var p := FILE_ZERO;
    SetFileStep(p, 0, START);
    SpecialStep(p, 2, Regs(0, 1, 0));
    FixedStep(p, 3, Regs(0, 2, 0));
    EndStep(p, 6, Regs(12, 2, 0));
    var a := LineRow(0, 2, 0);
    assert Events(SIMPLE, p, 0, START) == [Emit(a)] + [EndSequence(12)];
    MoreRows(a, [EndSequence(12)], []);
    LastEnd(12, [a]);
    assert [] + [a] == [a];
  }

  lemma MoreRows(r: LineRow, ev: seq<Event>, rows: seq<LineRow>)
    ensures Sequences([Emit(r)] + ev, rows) == Sequences(ev, rows + [r])
  {
    assert ([Emit(r)] + ev)[1..] == ev;
  }

  lemma LastEnd(a: nat, rows: seq<LineRow>)
    ensures Sequences([EndSequence(a)], rows) == [Sequence(rows, Some(a))]
  {
    assert Sequences([], []) == [];
  }

  /** On a program whose addresses go down the machine finds line 2 for address 5, while the matrix has line 4. */
  method FindsEarlierRow() returns (found: Option<(nat, nat)>)
    ensures found == Some((2, 1)) && WatchAt(Matrix(SIMPLE, DESCENDING), 5) == Some(Position(0, 0))
    ensures RowAt(Matrix(SIMPLE, DESCENDING), LookupAt(Matrix(SIMPLE, DESCENDING), 5)) == Some((4, 1))
  {
    hide Matrix, WatchAt, LookupAt, InStep, WellFormed;
    DescendingMatrix();
    DescendingDiffers();
    found := Find(SIMPLE, DESCENDING, 5);
  }

  /** On a program with a row of file 0 the machine finds nothing for address 5, while the matrix has that row. */
  method FindsNoRow() returns (found: Option<(nat, nat)>)
    ensures found == None && WatchAt(Matrix(SIMPLE, FILE_ZERO), 5) == None
    ensures RowAt(Matrix(SIMPLE, FILE_ZERO), LookupAt(Matrix(SIMPLE, FILE_ZERO), 5)) == Some((2, 0))
  {
    hide Matrix, WatchAt, LookupAt, InStep, WellFormed;
    FileZeroMatrix();
    FileZeroDiffers();
    found := Find(SIMPLE, FILE_ZERO, 5);
  }
}
