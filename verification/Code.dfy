/**
 Decoding one basic block of instructions.

 An instruction is its opcode, its form and its operands in the order the bytes hold them; the
 operand kinds of every opcode are `Layout`.  The decoder is specified by the ENCODER alone: it
 accepts exactly the encodings of legal blocks and returns the block they encode.
 */
module Code {
  import opened Wrappers
  import opened Words
  import opened Cursors
  import opened PrefixCodes

  const ABSENT_REGISTER := 0xFFFF

  datatype Limits = Limits(recordsPerSection: nat, registersPerFunction: nat)

  datatype Kind =
    | Reg | OptionalReg | Id | Component
    | UnarySelector | BinarySelector | MatrixSelector
    /** Read only when the matrix operation has a right operand. */
    | RegUnlessTranspose
    | Args | Cases

  datatype SwitchCase = SwitchCase(value: int, target: nat)

  datatype Operand =
    | Number(n: nat)
    | Registers(registers: seq<nat>)
    | CaseTable(cases: seq<SwitchCase>)
    | NoOperand

  datatype Instruction = Instruction(opcode: Byte, form: Byte, operands: seq<Operand>)

  // ---- the instruction set ----

  function Layout(opcode: int): Option<seq<Kind>> {
    if opcode == 0x00 || opcode == 0xff then Some([])
    else if opcode == 0x03 || opcode == 0xe4 then Some([Reg])
    else if opcode in {0x01, 0x04, 0x15, 0x32, 0x52, 0x60, 0x64, 0x68, 0x69} then Some([Reg, Reg])
    else if opcode in {0x02, 0x30, 0x37, 0xe7} then Some([Reg, Id])
    else if opcode == 0x05 then Some([Reg, Args])
    else if opcode == 0x06 then Some([Reg, Reg, Component])
    else if 0x10 <= opcode <= 0x14 || 0x16 <= opcode <= 0x1b || 0x20 <= opcode <= 0x27
            || opcode in {0x33, 0x34, 0x61, 0x62, 0x63, 0x65} then Some([Reg, Reg, Reg])
    else if opcode == 0x66 || opcode == 0x67 then Some([Reg, Reg, Reg, Reg])
    else if opcode == 0x3b then Some([Reg, Reg, Reg, Reg, Reg])
    else if opcode == 0x1c then Some([UnarySelector, Reg, Reg])
    else if opcode == 0x1d then Some([BinarySelector, Reg, Reg, Reg])
    else if opcode == 0x1e then Some([MatrixSelector, Reg, Reg, RegUnlessTranspose])
    else if opcode == 0x31 || opcode == 0x36 then Some([Reg, Id, Reg])
    else if opcode in {0x35, 0x39, 0x3a, 0xea, 0xeb} then Some([Reg, Reg, Id])
    else if opcode == 0x38 then Some([Id, Reg])
    else if 0x40 <= opcode <= 0x42 then Some([OptionalReg, Id, Args])
    else if opcode == 0x50 then Some([Reg, Id, Args])
    else if opcode == 0x51 then Some([OptionalReg, Id, Id, Args])
    else if opcode == 0xe0 || opcode == 0xe6 then Some([Id])
    else if opcode == 0xe1 then Some([Reg, Id, Id])
    else if opcode == 0xe2 then Some([Reg, Id, Cases])
    else if opcode == 0xe3 then Some([OptionalReg])
    else if opcode == 0xe5 then Some([OptionalReg, Id, Args, Id])
    else if opcode == 0xe8 then Some([OptionalReg, Reg, Id])
    else if opcode == 0xe9 then Some([OptionalReg, Id, Id, Args, Id])
    else None
  }

  predicate ValidForm(opcode: int, form: int) {
    if opcode == 0x04 then 0 <= form <= 3
    else if 0x10 <= opcode <= 0x14 then 1 <= form <= 4 || form == 8 || form == 9
    else if opcode == 0x15 then 1 <= form <= 4
    else if opcode == 0x1c || opcode == 0x1d then form == 3 || form == 4
    else if 0x16 <= opcode <= 0x1b then form == 1 || form == 2
    else if opcode == 0x20 || opcode == 0x21 then 1 <= form <= 6 || form == 8 || form == 9
    else if 0x22 <= opcode <= 0x25 then 1 <= form <= 4 || form == 6 || form == 8 || form == 9
    else if opcode == 0x26 || opcode == 0x27 then form == 7
    else if opcode == 0x69 then 1 <= form <= 7
    else if opcode == 0x68 then 1 <= form <= 9
    else form == 0
  }

  /** Control leaves the block at these instructions. */
  predicate IsTerminator(i: Instruction) {
    0xe0 <= i.opcode <= 0xeb || i.opcode == 0xff
  }

  predicate IsTranspose(selector: nat) {
    selector == 1 || selector == 6 || selector == 9 || selector == 12
  }

  // ---- operands ----

  predicate LegalRegister(n: nat) { n < ABSENT_REGISTER }

  predicate LegalCase(c: SwitchCase) {
    -0x8000_0000 <= c.value < 0x8000_0000 && c.target < TWO_32
  }

  predicate Increasing(cases: seq<SwitchCase>) {
    forall i, j | 0 <= i < j < |cases| :: cases[i].value < cases[j].value
  }

  /** `transpose` tells whether the instruction's first operand selects a transposition. */
  predicate Legal(kind: Kind, transpose: bool, limits: Limits, x: Operand) {
    match kind
    case Reg => x.Number? && LegalRegister(x.n)
    case OptionalReg => x.Number? && x.n <= ABSENT_REGISTER
    case Id => x.Number? && x.n < TWO_32
    case Component => x.Number? && x.n <= 0xFFFF
    case UnarySelector => x.Number? && 1 <= x.n <= 29
    case BinarySelector => x.Number? && 1 <= x.n <= 8
    case MatrixSelector => x.Number? && 1 <= x.n <= 16
    case RegUnlessTranspose => if transpose then x.NoOperand? else x.Number? && LegalRegister(x.n)
    case Args =>
      && x.Registers? && |x.registers| <= limits.registersPerFunction && |x.registers| < TWO_32
      && AllLegal(LegalRegister, x.registers)
    case Cases =>
      && x.CaseTable? && |x.cases| <= limits.registersPerFunction && |x.cases| < TWO_32
      && AllLegal(LegalCase, x.cases) && Increasing(x.cases)
  }

  function EncodeRegister(n: nat): seq<Byte> { EncodeLe(n, 2) }

  function EncodeCase(c: SwitchCase): seq<Byte> {
    (if -0x8000_0000 <= c.value < 0x8000_0000 then EncodeLe(FromI32(c.value), 4) else []) + EncodeUleb(c.target)
  }

  predicate IsRegister(kind: Kind) {
    kind == Reg || kind == OptionalReg || kind == RegUnlessTranspose
  }

  function EncodeOperand(kind: Kind, x: Operand): seq<Byte> {
    match x
    case Number(n) => if IsRegister(kind) then EncodeRegister(n) else EncodeUleb(n)
    case Registers(registers) => EncodeList(EncodeRegister, registers)
    case CaseTable(cases) => EncodeList(EncodeCase, cases)
    case NoOperand => []
  }

  lemma {:induction false} RegistersPrefixFree()
    ensures PrefixFree(EncodeRegister, LegalRegister)
  {
    forall x: nat, y: nat, s | LegalRegister(x) && LegalRegister(y) && Starts(EncodeRegister(x), s) && Starts(EncodeRegister(y), s)
      ensures x == y
    {
      WordForced(x, y, 2, s);
    }
  }

  lemma {:induction false} CasesPrefixFree()
    ensures PrefixFree(EncodeCase, LegalCase)
  {
    Powers();
    forall x, y, s | LegalCase(x) && LegalCase(y) && Starts(EncodeCase(x), s) && Starts(EncodeCase(y), s)
      ensures x == y
    {
      WordForced(FromI32(x.value), FromI32(y.value), 4, s);
      assert EncodeCase(x)[4..] == EncodeUleb(x.target) && EncodeCase(y)[4..] == EncodeUleb(y.target);
      UlebPrefixFree(x.target, y.target, s[4..]);
    }
  }

  /** An input fixes the legal operand that starts it. */
  lemma {:induction false} OperandsAgree(kind: Kind, transpose: bool, limits: Limits, x: Operand, y: Operand, s: seq<Byte>)
    requires Legal(kind, transpose, limits, x) && Legal(kind, transpose, limits, y)
    requires EncodeOperand(kind, x) <= s && EncodeOperand(kind, y) <= s
    ensures x == y
  {
    Powers();
    match kind
    case Args =>
      RegistersPrefixFree();
      ListsAgree(EncodeRegister, LegalRegister, x.registers, y.registers, s);
    case Cases =>
      CasesPrefixFree();
      ListsAgree(EncodeCase, LegalCase, x.cases, y.cases, s);
    case Reg | OptionalReg => WordForced(x.n, y.n, 2, s);
    case RegUnlessTranspose =>
      if !transpose {
        WordForced(x.n, y.n, 2, s);
      }
    case Id | Component | UnarySelector | BinarySelector | MatrixSelector => UlebPrefixFree(x.n, y.n, s);
  }

  lemma {:induction false} ListsAgree<T(!new)>(encode: T -> seq<Byte>, legal: T -> bool, xs: seq<T>, ys: seq<T>, s: seq<Byte>)
    requires PrefixFree(encode, legal) && AllLegal(legal, xs) && AllLegal(legal, ys)
    requires EncodeList(encode, xs) <= s && EncodeList(encode, ys) <= s
    ensures xs == ys
  {
    StartsTwice(EncodeUleb(|xs|), Concat(encode, xs), EncodeList(encode, xs), s);
    ListForced(encode, legal, xs, |xs|, ys, s);
  }

  // ---- instructions ----

  predicate TransposeAt(operands: seq<Operand>, i: nat) {
    0 < i && |operands| > 0 && operands[0].Number? && IsTranspose(operands[0].n)
  }

  predicate LegalAt(kinds: seq<Kind>, operands: seq<Operand>, limits: Limits, i: nat)
    requires i < |operands| <= |kinds|
  {
    Legal(kinds[i], TransposeAt(operands, i), limits, operands[i])
  }

  /** The first `|operands|` operands of an instruction are legal. */
  predicate LegalOperands(kinds: seq<Kind>, operands: seq<Operand>, limits: Limits) {
    |operands| <= |kinds| && forall i: nat | i < |operands| :: LegalAt(kinds, operands, limits, i)
  }

  function EncodeOperands(kinds: seq<Kind>, operands: seq<Operand>): seq<Byte>
    requires |operands| <= |kinds|
  {
    if operands == [] then []
    else EncodeOperands(kinds, operands[..|operands| - 1]) + EncodeOperand(kinds[|operands| - 1], operands[|operands| - 1])
  }

  predicate LegalInstruction(i: Instruction, limits: Limits) {
    && ValidForm(i.opcode, i.form)
    && Layout(i.opcode).Some?
    && |i.operands| == |Layout(i.opcode).value|
    && LegalOperands(Layout(i.opcode).value, i.operands, limits)
    && |OperandBytes(i)| + 4 <= 0xFFFF
  }

  function OperandBytes(i: Instruction): seq<Byte> {
    if Layout(i.opcode).Some? && |i.operands| <= |Layout(i.opcode).value|
    then EncodeOperands(Layout(i.opcode).value, i.operands) else []
  }

  /** Opcode, form, total length, operands. */
  function EncodeInstruction(i: Instruction): seq<Byte> {
    [i.opcode, i.form] + EncodeLe(|OperandBytes(i)| + 4, 2) + OperandBytes(i)
  }

  lemma {:induction false} OperandsPrefix(kinds: seq<Kind>, operands: seq<Operand>, k: nat)
    requires k <= |operands| <= |kinds|
    ensures EncodeOperands(kinds, operands[..k]) <= EncodeOperands(kinds, operands)
    decreases |operands|
  {
    if k < |operands| {
      var shorter := operands[..|operands| - 1];
      OperandsPrefix(kinds, shorter, k);
      assert shorter[..k] == operands[..k];
    } else {
      assert operands[..k] == operands;
    }
  }

  /** Behind the operands already read stands the encoding of the next one. */
  lemma {:induction false} NextOperandFollows(kinds: seq<Kind>, done: seq<Operand>, operands: seq<Operand>, s: seq<Byte>)
    requires |done| < |operands| <= |kinds| && done == operands[..|done|]
    requires EncodeOperands(kinds, operands) <= s
    ensures EncodeOperands(kinds, done) <= s
    ensures EncodeOperand(kinds[|done|], operands[|done|]) <= s[|EncodeOperands(kinds, done)|..]
  {
    var next := operands[..|done| + 1];
    OperandsPrefix(kinds, operands, |done| + 1);
    assert next[..|done|] == done;
    StartsTwice(EncodeOperands(kinds, done), EncodeOperand(kinds[|done|], operands[|done|]), EncodeOperands(kinds, next), s);
  }

  lemma {:induction false} NextOperandsAgree(kinds: seq<Kind>, xs: seq<Operand>, ys: seq<Operand>, limits: Limits, s: seq<Byte>, k: nat)
    requires LegalOperands(kinds, xs, limits) && LegalOperands(kinds, ys, limits)
    requires k < |xs| && k < |ys| && forall i | 0 <= i < k :: xs[i] == ys[i]
    requires EncodeOperands(kinds, xs) <= s && EncodeOperands(kinds, ys) <= s
    ensures xs[k] == ys[k]
  {
    assert xs[..k] == ys[..k];
    NextOperandFollows(kinds, xs[..k], xs, s);
    NextOperandFollows(kinds, xs[..k], ys, s);
    assert LegalAt(kinds, xs, limits, k) && LegalAt(kinds, ys, limits, k);
    OperandsAgree(kinds[k], TransposeAt(xs, k), limits, xs[k], ys[k], s[|EncodeOperands(kinds, xs[..k])|..]);
  }

  /** The bytes fix the operands of a known opcode from left to right. */
  lemma {:induction false} OperandListsAgree(kinds: seq<Kind>, xs: seq<Operand>, ys: seq<Operand>, limits: Limits, s: seq<Byte>, k: nat)
    requires LegalOperands(kinds, xs, limits) && LegalOperands(kinds, ys, limits)
    requires k < |xs| && k < |ys|
    requires EncodeOperands(kinds, xs) <= s && EncodeOperands(kinds, ys) <= s
    ensures xs[k] == ys[k]
    decreases k
  {
    forall j: nat | j < k
      ensures xs[j] == ys[j]
    {
      OperandListsAgree(kinds, xs, ys, limits, s, j);
    }
    NextOperandsAgree(kinds, xs, ys, limits, s, k);
  }

  // ---- reading operands ----

  method ReadRegister(cursor: Cursor, optional: bool) returns (r: Result<nat, Code>)
    requires cursor.Valid()
    modifies cursor
    ensures cursor.Valid()
    ensures r.Ok? ==>
              && r.value <= ABSENT_REGISTER && (optional || LegalRegister(r.value))
              && EncodeRegister(r.value) <= old(cursor.Rest()) && cursor.position == old(cursor.position) + 2
    ensures r.Err? ==> forall n: nat | n <= ABSENT_REGISTER && (optional || LegalRegister(n)) ::
              !Starts(EncodeRegister(n), old(cursor.Rest()))
  {
    Powers();
    ghost var rest := cursor.Rest();
    var word := cursor.ReadWord(2);
    if word.Err? {
      return word;
    }
    if !optional && word.value == ABSENT_REGISTER {
      forall n: nat | LegalRegister(n)
        ensures !Starts(EncodeRegister(n), rest)
      {
        if Starts(EncodeRegister(n), rest) {
          WordForced(n, ABSENT_REGISTER, 2, rest);
        }
      }
      return Err(BadInstruction);
    }
    return word;
  }

  /** A ULEB128 within bounds; anything else is refused. */
  method ReadBounded(cursor: Cursor, low: nat, high: nat) returns (r: Result<nat, Code>)
    requires cursor.Valid() && high < TWO_32
    modifies cursor
    ensures cursor.Valid()
    ensures r.Ok? ==>
              && low <= r.value <= high
              && EncodeUleb(r.value) <= old(cursor.Rest())
              && cursor.position == old(cursor.position) + |EncodeUleb(r.value)|
    ensures r.Err? ==> forall n: nat | low <= n <= high :: !Starts(EncodeUleb(n), old(cursor.Rest()))
  {
    ghost var rest := cursor.Rest();
    var number := cursor.ReadUleb32();
    if number.Err? {
      RefusedIsNotCanonical(rest, number.error);
      return number;
    }
    if !(low <= number.value <= high) {
      forall n: nat | low <= n <= high
        ensures !Starts(EncodeUleb(n), rest)
      {
        if Starts(EncodeUleb(n), rest) {
          UlebPrefixFree(n, number.value, rest);
        }
      }
      return Err(BadInstruction);
    }
    return number;
  }

  method ReadArgs(cursor: Cursor, limits: Limits) returns (r: Result<seq<nat>, Code>)
    requires cursor.Valid()
    modifies cursor
    ensures cursor.Valid()
    ensures r.Ok? ==>
              && Legal(Args, false, limits, Registers(r.value))
              && EncodeList(EncodeRegister, r.value) <= old(cursor.Rest())
              && cursor.position == old(cursor.position) + |EncodeList(EncodeRegister, r.value)|
    ensures r.Err? ==> forall xs: seq<nat> | Legal(Args, false, limits, Registers(xs)) ::
              !Starts(EncodeList(EncodeRegister, xs), old(cursor.Rest()))
  {
    ghost var rest := cursor.Rest();
    ghost var start := cursor.position;
    RegistersPrefixFree();
    var count := ReadCount(cursor, limits);
    if count.Err? {
      CountRefused(EncodeRegister, limits.registersPerFunction, rest);
      return Err(count.error);
    }
    ghost var tail := cursor.Rest();
    assert tail == rest[|EncodeUleb(count.value)|..];
    var values: seq<nat> := [];
    for i := 0 to count.value
      invariant cursor.Valid() && |values| == i && AllLegal(LegalRegister, values)
      invariant Concat(EncodeRegister, values) <= tail
      invariant cursor.position == start + |EncodeUleb(count.value)| + |Concat(EncodeRegister, values)|
    {
      assert cursor.Rest() == tail[|Concat(EncodeRegister, values)|..];
      var register := ReadRegister(cursor, false);
      if register.Err? {
        ListRefused(EncodeRegister, LegalRegister, values, count.value, rest);
        return Err(register.error);
      }
      ConcatExtends(EncodeRegister, values, register.value, tail);
      values := values + [register.value];
    }
    return Ok(values);
  }

  method ReadCount(cursor: Cursor, limits: Limits) returns (r: Result<nat, Code>)
    requires cursor.Valid()
    modifies cursor
    ensures cursor.Valid()
    ensures r.Ok? ==>
              && r.value <= limits.registersPerFunction && r.value < TWO_32
              && EncodeUleb(r.value) <= old(cursor.Rest())
              && cursor.position == old(cursor.position) + |EncodeUleb(r.value)|
    ensures r.Err? ==> forall n: nat | n <= limits.registersPerFunction && n < TWO_32 ::
              !Starts(EncodeUleb(n), old(cursor.Rest()))
  {
    ghost var rest := cursor.Rest();
    var number := cursor.ReadUleb32();
    if number.Err? {
      RefusedIsNotCanonical(rest, number.error);
      return number;
    }
    if number.value > limits.registersPerFunction {
      forall n: nat | n <= limits.registersPerFunction && n < TWO_32
        ensures !Starts(EncodeUleb(n), rest)
      {
        if Starts(EncodeUleb(n), rest) {
          UlebPrefixFree(n, number.value, rest);
        }
      }
      return Err(LimitExceeded);
    }
    return number;
  }

  method ReadCase(cursor: Cursor) returns (r: Result<SwitchCase, Code>)
    requires cursor.Valid()
    modifies cursor
    ensures cursor.Valid()
    ensures r.Ok? ==>
              && LegalCase(r.value) && EncodeCase(r.value) <= old(cursor.Rest())
              && cursor.position == old(cursor.position) + |EncodeCase(r.value)|
    ensures r.Err? ==> forall c | LegalCase(c) :: !Starts(EncodeCase(c), old(cursor.Rest()))
  {
    Powers();
    ghost var rest := cursor.Rest();
    var word := cursor.ReadWord(4);
    if word.Err? {
      return Err(word.error);
    }
    ghost var tail := cursor.Rest();
    var target := cursor.ReadUleb32();
    if target.Err? {
      RefusedIsNotCanonical(tail, target.error);
      forall c | LegalCase(c)
        ensures !Starts(EncodeCase(c), rest)
      {
        if Starts(EncodeCase(c), rest) {
          StartsTwice(EncodeLe(FromI32(c.value), 4), EncodeUleb(c.target), EncodeCase(c), rest);
        }
      }
      return Err(target.error);
    }
    assert rest == rest[..4] + tail;
    return Ok(SwitchCase(ToI32(word.value), target.value));
  }

  method ReadCases(cursor: Cursor, limits: Limits) returns (r: Result<seq<SwitchCase>, Code>)
    requires cursor.Valid()
    modifies cursor
    ensures cursor.Valid()
    ensures r.Ok? ==>
              && Legal(Cases, false, limits, CaseTable(r.value))
              && EncodeList(EncodeCase, r.value) <= old(cursor.Rest())
              && cursor.position == old(cursor.position) + |EncodeList(EncodeCase, r.value)|
    ensures r.Err? ==> forall xs: seq<SwitchCase> | Legal(Cases, false, limits, CaseTable(xs)) ::
              !Starts(EncodeList(EncodeCase, xs), old(cursor.Rest()))
  {
    ghost var rest := cursor.Rest();
    ghost var start := cursor.position;
    var count := ReadCount(cursor, limits);
    if count.Err? {
      CountRefused(EncodeCase, limits.registersPerFunction, rest);
      return Err(count.error);
    }
    ghost var tail := cursor.Rest();
    assert tail == rest[|EncodeUleb(count.value)|..];
    var cases: seq<SwitchCase> := [];
    for i := 0 to count.value
      invariant cursor.Valid() && |cases| == i && AllLegal(LegalCase, cases) && Increasing(cases)
      invariant Concat(EncodeCase, cases) <= tail
      invariant cursor.position == start + |EncodeUleb(count.value)| + |Concat(EncodeCase, cases)|
    {
      assert cursor.Rest() == tail[|Concat(EncodeCase, cases)|..];
      var next := ReadCaseBehind(cursor, cases, count.value, rest);
      if next.Err? {
        return Err(next.error);
      }
      cases := cases + [next.value];
    }
    return Ok(cases);
  }

  /** Reads the case behind those already read of a list of `count`; `rest` is what lay ahead of the whole list. */
  method ReadCaseBehind(cursor: Cursor, cases: seq<SwitchCase>, count: nat, ghost rest: seq<Byte>)
    returns (r: Result<SwitchCase, Code>)
    requires cursor.Valid() && AllLegal(LegalCase, cases) && Increasing(cases) && |cases| < count
    requires EncodeUleb(count) <= rest && Concat(EncodeCase, cases) <= rest[|EncodeUleb(count)|..]
    requires cursor.Rest() == rest[|EncodeUleb(count)|..][|Concat(EncodeCase, cases)|..]
    modifies cursor
    ensures cursor.Valid()
    ensures r.Ok? ==>
              && AllLegal(LegalCase, cases + [r.value]) && Increasing(cases + [r.value])
              && Concat(EncodeCase, cases + [r.value]) <= rest[|EncodeUleb(count)|..]
              && |Concat(EncodeCase, cases + [r.value])| == |Concat(EncodeCase, cases)| + |EncodeCase(r.value)|
              && cursor.position == old(cursor.position) + |EncodeCase(r.value)|
    ensures r.Err? ==> forall items | AllLegal(LegalCase, items) && Increasing(items) ::
              !Starts(EncodeList(EncodeCase, items), rest)
  {
    r := ReadCase(cursor);
    if r.Err? {
      CasesPrefixFree();
      ListRefused(EncodeCase, LegalCase, cases, count, rest);
      return;
    }
    ConcatExtends(EncodeCase, cases, r.value, rest[|EncodeUleb(count)|..]);
    OneMoreCase(cases, r.value);
    if |cases| > 0 && cases[|cases| - 1].value >= r.value.value {
      UnorderedRefused(cases + [r.value], count, rest);
      return Err(BadInstruction);
    }
  }

  lemma {:induction false} OneMoreCase(cases: seq<SwitchCase>, next: SwitchCase)
    requires AllLegal(LegalCase, cases) && Increasing(cases) && LegalCase(next)
    ensures AllLegal(LegalCase, cases + [next])
    ensures Increasing(cases + [next]) <==> cases == [] || cases[|cases| - 1].value < next.value
  {
    var longer := cases + [next];
    if cases != [] {
      assert longer[|cases| - 1] == cases[|cases| - 1] && longer[|cases|] == next;
    }
  }

  lemma {:induction false} UnorderedRefused(done: seq<SwitchCase>, count: nat, s: seq<Byte>)
    requires AllLegal(LegalCase, done) && !Increasing(done)
    requires EncodeUleb(count) <= s && |done| <= count
    requires Concat(EncodeCase, done) <= s[|EncodeUleb(count)|..]
    ensures forall items | AllLegal(LegalCase, items) && Increasing(items) :: !Starts(EncodeList(EncodeCase, items), s)
  {
    CasesPrefixFree();
    forall items | AllLegal(LegalCase, items) && Increasing(items)
      ensures !Starts(EncodeList(EncodeCase, items), s)
    {
      if Starts(EncodeList(EncodeCase, items), s) {
        ListForced(EncodeCase, LegalCase, done, count, items, s);
      }
    }
  }

  /**
   Reads one operand: the answer is the only legal operand whose encoding starts the bytes ahead,
   and a refusal means there is none.
   */
  method ReadOperand(cursor: Cursor, kind: Kind, transpose: bool, limits: Limits) returns (r: Result<Operand, Code>)
    requires cursor.Valid()
    modifies cursor
    ensures cursor.Valid()
    ensures r.Ok? ==>
              && Legal(kind, transpose, limits, r.value)
              && EncodeOperand(kind, r.value) <= old(cursor.Rest())
              && cursor.position == old(cursor.position) + |EncodeOperand(kind, r.value)|
    ensures r.Err? ==> forall x | Legal(kind, transpose, limits, x) :: !Starts(EncodeOperand(kind, x), old(cursor.Rest()))
  {
    match kind
    case Args =>
      var list := ReadArgs(cursor, limits);
      return if list.Ok? then Ok(Registers(list.value)) else Err(list.error);
    case Cases =>
      var table := ReadCases(cursor, limits);
      return if table.Ok? then Ok(CaseTable(table.value)) else Err(table.error);
    case _ =>
      r := ReadNumber(cursor, kind, transpose, limits);
  }

  method ReadNumber(cursor: Cursor, kind: Kind, transpose: bool, limits: Limits) returns (r: Result<Operand, Code>)
    requires cursor.Valid() && kind != Args && kind != Cases
    modifies cursor
    ensures cursor.Valid()
    ensures r.Ok? ==>
              && Legal(kind, transpose, limits, r.value)
              && EncodeOperand(kind, r.value) <= old(cursor.Rest())
              && cursor.position == old(cursor.position) + |EncodeOperand(kind, r.value)|
    ensures r.Err? ==> forall x | Legal(kind, transpose, limits, x) :: !Starts(EncodeOperand(kind, x), old(cursor.Rest()))
  {
    if kind == RegUnlessTranspose && transpose {
      return Ok(NoOperand);
    }
    var number;
    if IsRegister(kind) {
      number := ReadRegister(cursor, kind == OptionalReg);
    } else {
      var low, high := SelectorBounds(kind);
      number := ReadBounded(cursor, low, high);
    }
    return if number.Ok? then Ok(Number(number.value)) else Err(number.error);
  }

  method SelectorBounds(kind: Kind) returns (low: nat, high: nat)
    requires kind in {Id, Component, UnarySelector, BinarySelector, MatrixSelector}
    ensures high < TWO_32
    ensures forall n: nat, transpose, limits :: Legal(kind, transpose, limits, Number(n)) <==> low <= n <= high
  {
    match kind
    case Id => return 0, TWO_32 - 1;
    case Component => return 0, 0xFFFF;
    case UnarySelector => return 1, 29;
    case BinarySelector => return 1, 8;
    case MatrixSelector => return 1, 16;
  }

  // ---- decoding instructions ----

  /** No legal operand list of this opcode encodes to `bytes`. */
  ghost predicate NoOperandsEncode(kinds: seq<Kind>, limits: Limits, bytes: seq<Byte>) {
    forall xs: seq<Operand> | |xs| == |kinds| && LegalOperands(kinds, xs, limits) :: EncodeOperands(kinds, xs) != bytes
  }

  lemma {:induction false} OperandRefused(kinds: seq<Kind>, limits: Limits, bytes: seq<Byte>, done: seq<Operand>)
    requires LegalOperands(kinds, done, limits) && |done| < |kinds|
    requires EncodeOperands(kinds, done) <= bytes
    requires forall x | Legal(kinds[|done|], TransposeAt(done, |done|), limits, x) ::
               !Starts(EncodeOperand(kinds[|done|], x), bytes[|EncodeOperands(kinds, done)|..])
    ensures NoOperandsEncode(kinds, limits, bytes)
  {
    forall xs: seq<Operand> | |xs| == |kinds| && LegalOperands(kinds, xs, limits)
      ensures EncodeOperands(kinds, xs) != bytes
    {
      if EncodeOperands(kinds, xs) == bytes {
        OperandsForced(kinds, limits, bytes, done, xs);
      }
    }
  }

  /** Whatever encodes to `bytes` begins with the operands already read. */
  lemma {:induction false} OperandsForced(kinds: seq<Kind>, limits: Limits, bytes: seq<Byte>, done: seq<Operand>, xs: seq<Operand>)
    requires LegalOperands(kinds, done, limits) && LegalOperands(kinds, xs, limits)
    requires |done| <= |xs| == |kinds|
    requires EncodeOperands(kinds, done) <= bytes && EncodeOperands(kinds, xs) == bytes
    ensures xs[..|done|] == done && (|done| == |kinds| ==> xs == done)
    ensures |done| < |kinds| ==>
              && Legal(kinds[|done|], TransposeAt(done, |done|), limits, xs[|done|])
              && Starts(EncodeOperand(kinds[|done|], xs[|done|]), bytes[|EncodeOperands(kinds, done)|..])
  {
    forall j: nat | j < |done|
      ensures xs[j] == done[j]
    {
      OperandListsAgree(kinds, xs, done, limits, bytes, j);
    }
    assert xs[..|done|] == done;
    if |done| < |kinds| {
      NextOperandFollows(kinds, done, xs, bytes);
      assert LegalAt(kinds, xs, limits, |done|);
      assert TransposeAt(xs, |done|) == TransposeAt(done, |done|);
    }
  }

  lemma {:induction false} LegalLonger(kinds: seq<Kind>, limits: Limits, done: seq<Operand>, x: Operand)
    requires LegalOperands(kinds, done, limits) && |done| < |kinds|
    requires Legal(kinds[|done|], TransposeAt(done, |done|), limits, x)
    ensures LegalOperands(kinds, done + [x], limits)
  {
    var longer := done + [x];
    forall i: nat | i < |longer|
      ensures LegalAt(kinds, longer, limits, i)
    {
      assert i > 0 ==> longer[0] == done[0];
      assert i < |done| ==> LegalAt(kinds, done, limits, i) && longer[i] == done[i];
    }
  }

  lemma {:induction false} EncodeLonger(kinds: seq<Kind>, done: seq<Operand>, x: Operand, bytes: seq<Byte>, at: nat)
    requires |done| < |kinds| && at <= |bytes|
    requires EncodeOperands(kinds, done) == bytes[..at] && EncodeOperand(kinds[|done|], x) <= bytes[at..]
    ensures EncodeOperands(kinds, done + [x]) == bytes[..at + |EncodeOperand(kinds[|done|], x)|]
  {
    assert (done + [x])[..|done|] == done;
    var code := EncodeOperand(kinds[|done|], x);
    assert bytes[..at + |code|] == bytes[..at] + bytes[at..][..|code|];
  }

  /** Reads the operand behind those already read. */
  method ReadNextOperand(cursor: Cursor, kinds: seq<Kind>, operands: seq<Operand>, limits: Limits)
    returns (r: Result<Operand, Code>)
    requires cursor.Valid() && LegalOperands(kinds, operands, limits) && |operands| < |kinds|
    requires EncodeOperands(kinds, operands) == cursor.bytes[..cursor.position]
    modifies cursor
    ensures cursor.Valid()
    ensures r.Ok? ==>
              && LegalOperands(kinds, operands + [r.value], limits)
              && EncodeOperands(kinds, operands + [r.value]) == cursor.bytes[..cursor.position]
    ensures r.Err? ==> NoOperandsEncode(kinds, limits, cursor.bytes)
  {
    var k := |operands|;
    ghost var at := cursor.position;
    r := ReadOperand(cursor, kinds[k], TransposeAt(operands, k), limits);
    if r.Err? {
      OperandRefused(kinds, limits, cursor.bytes, operands);
    } else {
      LegalLonger(kinds, limits, operands, r.value);
      EncodeLonger(kinds, operands, r.value, cursor.bytes, at);
    }
  }

  /** Decodes all operands of an instruction; every byte must be used. */
  method DecodeOperands(kinds: seq<Kind>, bytes: seq<Byte>, limits: Limits) returns (r: Result<seq<Operand>, Code>)
    requires |bytes| <= U64_MAX
    ensures r.Ok? ==> |r.value| == |kinds| && LegalOperands(kinds, r.value, limits) && EncodeOperands(kinds, r.value) == bytes
    ensures r.Err? ==> NoOperandsEncode(kinds, limits, bytes)
  {
    var cursor := new Cursor(bytes);
    var operands: seq<Operand> := [];
    while |operands| < |kinds|
      invariant fresh(cursor) && cursor.Valid() && cursor.bytes == bytes
      invariant LegalOperands(kinds, operands, limits)
      invariant EncodeOperands(kinds, operands) == bytes[..cursor.position]
      decreases |kinds| - |operands|
    {
      var operand := ReadNextOperand(cursor, kinds, operands, limits);
      if operand.Err? {
        return Err(operand.error);
      }
      operands := operands + [operand.value];
    }
    if cursor.position != |bytes| {
      TrailingRefused(kinds, limits, bytes, operands);
      return Err(BadInstruction);
    }
    assert bytes[..|bytes|] == bytes;
    return Ok(operands);
  }

  lemma {:induction false} TrailingRefused(kinds: seq<Kind>, limits: Limits, bytes: seq<Byte>, done: seq<Operand>)
    requires LegalOperands(kinds, done, limits) && |done| == |kinds|
    requires EncodeOperands(kinds, done) < bytes
    ensures NoOperandsEncode(kinds, limits, bytes)
  {
    forall xs: seq<Operand> | |xs| == |kinds| && LegalOperands(kinds, xs, limits)
      ensures EncodeOperands(kinds, xs) != bytes
    {
      if EncodeOperands(kinds, xs) == bytes {
        OperandsForced(kinds, limits, bytes, done, xs);
      }
    }
  }

  /** Decodes one instruction from its opcode, its form and its operand bytes. */
  method DecodeInstruction(opcode: Byte, form: Byte, bytes: seq<Byte>, limits: Limits) returns (r: Result<Instruction, Code>)
    requires |bytes| + 4 <= 0xFFFF
    ensures r.Ok? ==>
              && r.value.opcode == opcode && r.value.form == form && OperandBytes(r.value) == bytes
              && LegalInstruction(r.value, limits)
    ensures r.Err? ==> forall i | LegalInstruction(i, limits) && i.opcode == opcode && i.form == form :: OperandBytes(i) != bytes
  {
    if !ValidForm(opcode, form) {
      return Err(BadInstruction);
    }
    var layout := Layout(opcode);
    if layout.None? {
      return Err(BadInstruction);
    }
    var operands := DecodeOperands(layout.value, bytes, limits);
    if operands.Err? {
      return Err(operands.error);
    }
    return Ok(Instruction(opcode, form, operands.value));
  }

  // ---- decoding a block ----

  function LegalIn(limits: Limits): Instruction -> bool {
    (i: Instruction) => LegalInstruction(i, limits)
  }

  /** A block: as many instructions as declared, ending in its only terminator. */
  predicate LegalBlock(block: seq<Instruction>, expected: nat, limits: Limits) {
    && |block| == expected <= limits.recordsPerSection
    && AllLegal(LegalIn(limits), block)
    && block != [] && EndsOnce(block)
  }

  predicate EndsOnce(block: seq<Instruction>) {
    forall i | 0 <= i < |block| :: IsTerminator(block[i]) <==> i == |block| - 1
  }

  /** The bytes fix the header of the instruction that starts them, and with it the operand bytes. */
  lemma {:induction false} HeaderFixed(i: Instruction, limits: Limits, s: seq<Byte>)
    requires LegalInstruction(i, limits) && Starts(EncodeInstruction(i), s)
    ensures |s| >= 4 && s[0] == i.opcode && s[1] == i.form
    ensures DecodeLe(s[2..4]) == |OperandBytes(i)| + 4
    ensures OperandBytes(i) <= s[4..]
  {
    Powers();
    var length := EncodeLe(|OperandBytes(i)| + 4, 2);
    assert EncodeInstruction(i) == ([i.opcode, i.form] + length) + OperandBytes(i);
    StartsTwice([i.opcode, i.form] + length, OperandBytes(i), EncodeInstruction(i), s);
    assert s[2..4] == ([i.opcode, i.form] + length)[2..4] == length;
    LeRoundTrip(|OperandBytes(i)| + 4, 2);
  }

  lemma {:induction false} InstructionsPrefixFree(limits: Limits)
    ensures PrefixFree(EncodeInstruction, LegalIn(limits))
  {
    var legal := LegalIn(limits);
    forall x, y, s | legal(x) && legal(y) && Starts(EncodeInstruction(x), s) && Starts(EncodeInstruction(y), s)
      ensures x == y
    {
      InstructionsAgree(x, y, limits, s);
    }
  }

  lemma {:induction false} InstructionsAgree(x: Instruction, y: Instruction, limits: Limits, s: seq<Byte>)
    requires LegalInstruction(x, limits) && LegalInstruction(y, limits)
    requires Starts(EncodeInstruction(x), s) && Starts(EncodeInstruction(y), s)
    ensures x == y
  {
    HeaderFixed(x, limits, s);
    HeaderFixed(y, limits, s);
    var kinds := Layout(x.opcode).value;
    forall k: nat | k < |kinds|
      ensures x.operands[k] == y.operands[k]
    {
      OperandListsAgree(kinds, x.operands, y.operands, limits, s[4..], k);
    }
    assert x.operands == y.operands;
  }

  lemma {:induction false} BlockLength(block: seq<Instruction>)
    ensures |Concat(EncodeInstruction, block)| >= 4 * |block|
  {
    if block != [] {
      BlockLength(block[1..]);
    }
  }

  /** A block that encodes to `bytes` begins with the instructions already read, and goes on if bytes are left. */
  lemma {:induction false} BlockForced(done: seq<Instruction>, block: seq<Instruction>, limits: Limits, bytes: seq<Byte>)
    requires AllLegal(LegalIn(limits), done) && AllLegal(LegalIn(limits), block)
    requires Concat(EncodeInstruction, done) <= bytes && Concat(EncodeInstruction, block) == bytes
    ensures |done| <= |block| && block[..|done|] == done
    ensures |done| == |block| <==> Concat(EncodeInstruction, done) == bytes
    ensures |done| < |block| ==> Starts(EncodeInstruction(block[|done|]), bytes[|Concat(EncodeInstruction, done)|..])
  {
    InstructionsPrefixFree(limits);
    if |done| <= |block| {
      SamePrefix(EncodeInstruction, LegalIn(limits), done, block, bytes);
      ConcatSplit(EncodeInstruction, block, |done|);
      BlockLength(block[|done|..]);
      assert |done| == |block| ==> block[..|done|] == block;
      if |done| < |block| {
        NextItemFollows(EncodeInstruction, LegalIn(limits), done, block, bytes);
      }
    } else {
      SamePrefix(EncodeInstruction, LegalIn(limits), block, done, bytes);
      ConcatSplit(EncodeInstruction, done, |block|);
      BlockLength(done[|block|..]);
    }
  }

  ghost predicate NoBlockEncodes(expected: nat, limits: Limits, bytes: seq<Byte>) {
    forall block | LegalBlock(block, expected, limits) :: Concat(EncodeInstruction, block) != bytes
  }

  /** Every reason to refuse the bytes ahead as an instruction. */
  lemma {:induction false} InstructionRefused(limits: Limits, s: seq<Byte>)
    requires || |s| < 4
             || DecodeLe(s[2..4]) < 4
             || |s| < DecodeLe(s[2..4])
             || forall i | LegalInstruction(i, limits) && i.opcode == s[0] && i.form == s[1] ::
                  OperandBytes(i) != s[4..DecodeLe(s[2..4])]
    ensures forall i | LegalInstruction(i, limits) :: !Starts(EncodeInstruction(i), s)
  {
    forall i | LegalInstruction(i, limits)
      ensures !Starts(EncodeInstruction(i), s)
    {
      if Starts(EncodeInstruction(i), s) {
        HeaderFixed(i, limits, s);
      }
    }
  }

  lemma {:induction false} InstructionRead(i: Instruction, s: seq<Byte>)
    requires |s| >= 4 && s[0] == i.opcode && s[1] == i.form
    requires 4 <= DecodeLe(s[2..4]) <= |s| && OperandBytes(i) == s[4..DecodeLe(s[2..4])]
    ensures EncodeInstruction(i) <= s && |EncodeInstruction(i)| == DecodeLe(s[2..4])
  {
    LeCanonical(s[2..4]);
    assert EncodeInstruction(i) == [s[0], s[1]] + s[2..4] + s[4..DecodeLe(s[2..4])] == s[..DecodeLe(s[2..4])];
  }

  /** Reads the header and the operands of one instruction; the answer is the only one that starts the bytes ahead. */
  method ReadInstruction(cursor: Cursor, limits: Limits) returns (r: Result<Instruction, Code>)
    requires cursor.Valid()
    modifies cursor
    ensures cursor.Valid()
    ensures r.Ok? ==>
              && LegalInstruction(r.value, limits) && EncodeInstruction(r.value) <= old(cursor.Rest())
              && cursor.position == old(cursor.position) + |EncodeInstruction(r.value)|
    ensures r.Err? ==> forall i | LegalInstruction(i, limits) :: !Starts(EncodeInstruction(i), old(cursor.Rest()))
  {
    Powers();
    ghost var rest := cursor.Rest();
    var opcode := cursor.Take(1);
    if opcode.Err? {
      InstructionRefused(limits, rest);
      return Err(opcode.error);
    }
    var form := cursor.Take(1);
    if form.Err? {
      InstructionRefused(limits, rest);
      return Err(form.error);
    }
    var word := cursor.Take(2);
    if word.Err? {
      InstructionRefused(limits, rest);
      return Err(word.error);
    }
    assert word.value == rest[2..4];
    var length := DecodeLe(word.value);
    if length < 4 {
      InstructionRefused(limits, rest);
      return Err(BadInstruction);
    }
    var operands := cursor.Take(length - 4);
    if operands.Err? {
      InstructionRefused(limits, rest);
      return Err(BadInstruction);
    }
    assert operands.value == rest[4..length];
    r := DecodeInstruction(opcode.value[0], form.value[0], operands.value, limits);
    if r.Ok? {
      InstructionRead(r.value, rest);
    } else {
      InstructionRefused(limits, rest);
    }
  }

  /**
   Decodes a block: accepts exactly the encodings of legal blocks of the declared length, and
   answers the block that was encoded.
   */
  method DecodeCodeRecord(bytes: seq<Byte>, expected: nat, limits: Limits) returns (r: Result<seq<Instruction>, Code>)
    requires |bytes| <= U64_MAX
    ensures r.Ok? ==> LegalBlock(r.value, expected, limits) && Concat(EncodeInstruction, r.value) == bytes
    ensures r.Err? ==> NoBlockEncodes(expected, limits, bytes)
  {
    if expected > limits.recordsPerSection {
      return Err(LimitExceeded);
    }
    if expected > |bytes| / 4 {
      forall block | LegalBlock(block, expected, limits)
        ensures Concat(EncodeInstruction, block) != bytes
      {
        BlockLength(block);
      }
      return Err(BadInstruction);
    }
    var instructions: seq<Instruction> := [];
    var cursor := new Cursor(bytes);
    var sawTerminator := false;
    while cursor.position < |bytes|
      invariant fresh(cursor) && cursor.Valid() && cursor.bytes == bytes
      invariant |instructions| <= expected && AllLegal(LegalIn(limits), instructions)
      invariant Concat(EncodeInstruction, instructions) == bytes[..cursor.position]
      invariant Straight(instructions)
      invariant sawTerminator <==> instructions != [] && IsTerminator(instructions[|instructions| - 1])
      decreases |bytes| - cursor.position
    {
      if sawTerminator {
        BlockRefused(instructions, expected, limits, bytes);
        return Err(BadInstruction);
      }
      ghost var at := cursor.position;
      var instruction := ReadInstruction(cursor, limits);
      if instruction.Err? {
        BlockRefused(instructions, expected, limits, bytes);
        return Err(instruction.error);
      }
      OneMoreRead(instructions, instruction.value, limits, bytes, at);
      instructions := instructions + [instruction.value];
      sawTerminator := IsTerminator(instruction.value);
      if |instructions| > expected {
        BlockRefused(instructions, expected, limits, bytes);
        return Err(BadInstruction);
      }
    }
    assert bytes[..|bytes|] == bytes;
    if |instructions| != expected || !sawTerminator {
      BlockRefused(instructions, expected, limits, bytes);
      return Err(BadInstruction);
    }
    StraightEndsOnce(instructions);
    return Ok(instructions);
  }

  /** No terminator stands before the last instruction. */
  predicate Straight(block: seq<Instruction>) {
    forall i | 0 <= i < |block| - 1 :: !IsTerminator(block[i])
  }

  lemma {:induction false} StraightGrows(block: seq<Instruction>, next: Instruction)
    requires Straight(block) && (block == [] || !IsTerminator(block[|block| - 1]))
    ensures Straight(block + [next])
  {
  }

  lemma {:induction false} OneMoreRead(done: seq<Instruction>, next: Instruction, limits: Limits, bytes: seq<Byte>, at: nat)
    requires AllLegal(LegalIn(limits), done) && Straight(done) && (done == [] || !IsTerminator(done[|done| - 1]))
    requires at <= |bytes| && Concat(EncodeInstruction, done) == bytes[..at]
    requires LegalInstruction(next, limits) && EncodeInstruction(next) <= bytes[at..]
    ensures AllLegal(LegalIn(limits), done + [next]) && Straight(done + [next])
    ensures at + |EncodeInstruction(next)| <= |bytes|
    ensures Concat(EncodeInstruction, done + [next]) == bytes[..at + |EncodeInstruction(next)|]
  {
    ConcatExtends(EncodeInstruction, done, next, bytes);
    StraightGrows(done, next);
    AllLegalAppend(LegalIn(limits), done, next);
  }

  lemma {:induction false} StraightEndsOnce(block: seq<Instruction>)
    requires Straight(block) && block != [] && IsTerminator(block[|block| - 1])
    ensures EndsOnce(block)
  {
  }

  /** Every reason to refuse a block once `done` has been read. */
  lemma {:induction false} BlockRefused(done: seq<Instruction>, expected: nat, limits: Limits, bytes: seq<Byte>)
    requires AllLegal(LegalIn(limits), done) && Concat(EncodeInstruction, done) <= bytes
    requires var ended := done != [] && IsTerminator(done[|done| - 1]);
             var all := Concat(EncodeInstruction, done) == bytes;
             || (ended && !all)
             || (!all && forall i | LegalInstruction(i, limits) ::
                   !Starts(EncodeInstruction(i), bytes[|Concat(EncodeInstruction, done)|..]))
             || |done| > expected
             || (all && (|done| != expected || !ended))
    ensures NoBlockEncodes(expected, limits, bytes)
  {
    forall block | LegalBlock(block, expected, limits)
      ensures Concat(EncodeInstruction, block) != bytes
    {
      if Concat(EncodeInstruction, block) == bytes {
        BlockForced(done, block, limits, bytes);
      }
    }
  }

  /** Decoding is canonical: one block has one encoding, and one encoding one block. */
  lemma {:induction false} BlocksAgree(x: seq<Instruction>, y: seq<Instruction>, limits: Limits)
    requires AllLegal(LegalIn(limits), x) && AllLegal(LegalIn(limits), y)
    ensures Concat(EncodeInstruction, x) == Concat(EncodeInstruction, y) <==> x == y
  {
    if Concat(EncodeInstruction, x) == Concat(EncodeInstruction, y) {
      BlockForced(x, y, limits, Concat(EncodeInstruction, y));
      assert y[..|x|] == y;
    }
  }
}
