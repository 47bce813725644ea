/**
 The instruction set by name: every instruction of the machine, the opcode and the operands it is written with, the
 forms it has, and whether it ends a block. The decoder's tables, which go by opcode, agree with it in both directions.
 */
module InstructionSet {
  import opened Wrappers
  import opened Words
  import opened Cursors
  import opened PrefixCodes
  import opened Code

  datatype Basic =
    | Nop | Move | Const | Null | Convert | InlineConstruct | InlineComponent

  datatype Arithmetic =
    | Add | Sub | Mul | Div | Rem | Neg | BitAnd | BitOr | BitXor | ShiftLeft | ShiftRight | ShiftUnsigned | MathUnary
    | MathBinary | MatrixMath

  datatype Comparison =
    | Equal | NotEqual | Less | LessEqual | Greater | GreaterEqual | RefEqual | RefNotEqual

  datatype Memory =
    | NewObject | NewArray | ArrayLength | ArrayLoad | ArrayStore | FieldGet | FieldSet | StaticGet | StaticSet
    | IsType | CheckedCast | ArrayCopy

  datatype Calling =
    | CallDirect | CallVirtual | CallInterface | CoroutineSpawn | CapabilityCallSync | ChannelCreate

  datatype Text =
    | StringLength | StringGet | StringEquals | StringCompare | StringHash | StringConcat | StringSubstring
    | StringFromCharArray | StringValueOf | ValueHash

  datatype Control =
    | Jump | Branch | SwitchI32 | Return | Throw | CallSuspend | Yield | Sleep | CoroutineJoin | CapabilityCallAsync
    | ChannelSend | ChannelReceive | Unreachable

  datatype Mnemonic =
    | OfBasic(nameBasic: Basic)
    | OfArithmetic(nameArithmetic: Arithmetic)
    | OfComparison(nameComparison: Comparison)
    | OfMemory(nameMemory: Memory)
    | OfCalling(nameCalling: Calling)
    | OfText(nameText: Text)
    | OfControl(nameControl: Control)

  function BasicOpcode(b: Basic): Byte {
    match b
    case Nop => 0x00
    case Move => 0x01
    case Const => 0x02
    case Null => 0x03
    case Convert => 0x04
    case InlineConstruct => 0x05
    case InlineComponent => 0x06
  }

  function ArithmeticOpcode(a: Arithmetic): Byte {
    match a
    case Add => 0x10
    case Sub => 0x11
    case Mul => 0x12
    case Div => 0x13
    case Rem => 0x14
    case Neg => 0x15
    case BitAnd => 0x16
    case BitOr => 0x17
    case BitXor => 0x18
    case ShiftLeft => 0x19
    case ShiftRight => 0x1A
    case ShiftUnsigned => 0x1B
    case MathUnary => 0x1C
    case MathBinary => 0x1D
    case MatrixMath => 0x1E
  }

  function ComparisonOpcode(c: Comparison): Byte {
    match c
    case Equal => 0x20
    case NotEqual => 0x21
    case Less => 0x22
    case LessEqual => 0x23
    case Greater => 0x24
    case GreaterEqual => 0x25
    case RefEqual => 0x26
    case RefNotEqual => 0x27
  }

  function MemoryOpcode(y: Memory): Byte {
    match y
    case NewObject => 0x30
    case NewArray => 0x31
    case ArrayLength => 0x32
    case ArrayLoad => 0x33
    case ArrayStore => 0x34
    case FieldGet => 0x35
    case FieldSet => 0x36
    case StaticGet => 0x37
    case StaticSet => 0x38
    case IsType => 0x39
    case CheckedCast => 0x3A
    case ArrayCopy => 0x3B
  }

  function CallingOpcode(k: Calling): Byte {
    match k
    case CallDirect => 0x40
    case CallVirtual => 0x41
    case CallInterface => 0x42
    case CoroutineSpawn => 0x50
    case CapabilityCallSync => 0x51
    case ChannelCreate => 0x52
  }

  function TextOpcode(x: Text): Byte {
    match x
    case StringLength => 0x60
    case StringGet => 0x61
    case StringEquals => 0x62
    case StringCompare => 0x63
    case StringHash => 0x64
    case StringConcat => 0x65
    case StringSubstring => 0x66
    case StringFromCharArray => 0x67
    case StringValueOf => 0x68
    case ValueHash => 0x69
  }

  function ControlOpcode(t: Control): Byte {
    match t
    case Jump => 0xE0
    case Branch => 0xE1
    case SwitchI32 => 0xE2
    case Return => 0xE3
    case Throw => 0xE4
    case CallSuspend => 0xE5
    case Yield => 0xE6
    case Sleep => 0xE7
    case CoroutineJoin => 0xE8
    case CapabilityCallAsync => 0xE9
    case ChannelSend => 0xEA
    case ChannelReceive => 0xEB
    case Unreachable => 0xFF
  }

  function Opcode(m: Mnemonic): Byte {
    match m
    case OfBasic(b) => BasicOpcode(b)
    case OfArithmetic(a) => ArithmeticOpcode(a)
    case OfComparison(c) => ComparisonOpcode(c)
    case OfMemory(y) => MemoryOpcode(y)
    case OfCalling(k) => CallingOpcode(k)
    case OfText(x) => TextOpcode(x)
    case OfControl(t) => ControlOpcode(t)
  }

  // ---- operands, in the order in which the encoder writes them ----

  function BasicFields(b: Basic): seq<Kind> {
    match b
    case Nop => []
    case Move => [Reg, Reg]
    case Const => [Reg, Id]
    case Null => [Reg]
    case Convert => [Reg, Reg]
    case InlineConstruct => [Reg, Args]
    case InlineComponent => [Reg, Reg, Component]
  }

  function ArithmeticFields(a: Arithmetic): seq<Kind> {
    match a
    case Add => [Reg, Reg, Reg]
    case Sub => [Reg, Reg, Reg]
    case Mul => [Reg, Reg, Reg]
    case Div => [Reg, Reg, Reg]
    case Rem => [Reg, Reg, Reg]
    case Neg => [Reg, Reg]
    case BitAnd => [Reg, Reg, Reg]
    case BitOr => [Reg, Reg, Reg]
    case BitXor => [Reg, Reg, Reg]
    case ShiftLeft => [Reg, Reg, Reg]
    case ShiftRight => [Reg, Reg, Reg]
    case ShiftUnsigned => [Reg, Reg, Reg]
    case MathUnary => [UnarySelector, Reg, Reg]
    case MathBinary => [BinarySelector, Reg, Reg, Reg]
    case MatrixMath => [MatrixSelector, Reg, Reg, RegUnlessTranspose]
  }

  function ComparisonFields(c: Comparison): seq<Kind> {
    match c
    case Equal => [Reg, Reg, Reg]
    case NotEqual => [Reg, Reg, Reg]
    case Less => [Reg, Reg, Reg]
    case LessEqual => [Reg, Reg, Reg]
    case Greater => [Reg, Reg, Reg]
    case GreaterEqual => [Reg, Reg, Reg]
    case RefEqual => [Reg, Reg, Reg]
    case RefNotEqual => [Reg, Reg, Reg]
  }

  function MemoryFields(y: Memory): seq<Kind> {
    match y
    case NewObject => [Reg, Id]
    case NewArray => [Reg, Id, Reg]
    case ArrayLength => [Reg, Reg]
    case ArrayLoad => [Reg, Reg, Reg]
    case ArrayStore => [Reg, Reg, Reg]
    case FieldGet => [Reg, Reg, Id]
    case FieldSet => [Reg, Id, Reg]
    case StaticGet => [Reg, Id]
    case StaticSet => [Id, Reg]
    case IsType => [Reg, Reg, Id]
    case CheckedCast => [Reg, Reg, Id]
    case ArrayCopy => [Reg, Reg, Reg, Reg, Reg]
  }

  function CallingFields(k: Calling): seq<Kind> {
    match k
    case CallDirect => [OptionalReg, Id, Args]
    case CallVirtual => [OptionalReg, Id, Args]
    case CallInterface => [OptionalReg, Id, Args]
    case CoroutineSpawn => [Reg, Id, Args]
    case CapabilityCallSync => [OptionalReg, Id, Id, Args]
    case ChannelCreate => [Reg, Reg]
  }

  function TextFields(x: Text): seq<Kind> {
    match x
    case StringLength => [Reg, Reg]
    case StringGet => [Reg, Reg, Reg]
    case StringEquals => [Reg, Reg, Reg]
    case StringCompare => [Reg, Reg, Reg]
    case StringHash => [Reg, Reg]
    case StringConcat => [Reg, Reg, Reg]
    case StringSubstring => [Reg, Reg, Reg, Reg]
    case StringFromCharArray => [Reg, Reg, Reg, Reg]
    case StringValueOf => [Reg, Reg]
    case ValueHash => [Reg, Reg]
  }

  function ControlFields(t: Control): seq<Kind> {
    match t
    case Jump => [Id]
    case Branch => [Reg, Id, Id]
    case SwitchI32 => [Reg, Id, Cases]
    case Return => [OptionalReg]
    case Throw => [Reg]
    case CallSuspend => [OptionalReg, Id, Args, Id]
    case Yield => [Id]
    case Sleep => [Reg, Id]
    case CoroutineJoin => [OptionalReg, Reg, Id]
    case CapabilityCallAsync => [OptionalReg, Id, Id, Args, Id]
    case ChannelSend => [Reg, Reg, Id]
    case ChannelReceive => [Reg, Reg, Id]
    case Unreachable => []
  }

  function Fields(m: Mnemonic): seq<Kind> {
    match m
    case OfBasic(b) => BasicFields(b)
    case OfArithmetic(a) => ArithmeticFields(a)
    case OfComparison(c) => ComparisonFields(c)
    case OfMemory(y) => MemoryFields(y)
    case OfCalling(k) => CallingFields(k)
    case OfText(x) => TextFields(x)
    case OfControl(t) => ControlFields(t)
  }

  // ---- forms: the types that an instruction works on ----

  predicate BasicForm(b: Basic, form: Byte) {
    match b
    case Convert => form in {0, 1, 2, 3}
    case _ => form in {0}
  }

  predicate ArithmeticForm(a: Arithmetic, form: Byte) {
    match a
    case Add | Sub | Mul | Div | Rem => form in {1, 2, 3, 4, 8, 9}
    case Neg => form in {1, 2, 3, 4}
    case BitAnd | BitOr | BitXor | ShiftLeft | ShiftRight | ShiftUnsigned => form in {1, 2}
    case MathUnary | MathBinary => form in {3, 4}
    case MatrixMath => form in {0}
  }

  predicate ComparisonForm(c: Comparison, form: Byte) {
    match c
    case Equal | NotEqual => form in {1, 2, 3, 4, 5, 6, 8, 9}
    case Less | LessEqual | Greater | GreaterEqual => form in {1, 2, 3, 4, 6, 8, 9}
    case RefEqual | RefNotEqual => form in {7}
  }

  predicate TextForm(x: Text, form: Byte) {
    match x
    case StringValueOf => form in {1, 2, 3, 4, 5, 6, 7, 8, 9}
    case ValueHash => form in {1, 2, 3, 4, 5, 6, 7}
    case _ => form in {0}
  }

  predicate HasForm(m: Mnemonic, form: Byte) {
    match m
    case OfBasic(b) => BasicForm(b, form)
    case OfArithmetic(a) => ArithmeticForm(a, form)
    case OfComparison(c) => ComparisonForm(c, form)
    case OfText(x) => TextForm(x, form)
    case _ => form in {0}
  }

  /** Control leaves a block here and nowhere else. */
  predicate EndsBlock(m: Mnemonic) {
    m.OfControl?
  }

  datatype MatrixOperation =
    | Transpose | MultiplyMatrix | MultiplyVector | TransformPoint | TransformDirection | Transpose3f
    | MultiplyMatrix3f | MultiplyVector3f | Transpose3d | MultiplyMatrix3d | MultiplyVector3d | Transpose4d
    | MultiplyMatrix4d | MultiplyVector4d | TransformPoint4d | TransformDirection4d

  function Selector(m: MatrixOperation): nat {
    match m
    case Transpose => 1
    case MultiplyMatrix => 2
    case MultiplyVector => 3
    case TransformPoint => 4
    case TransformDirection => 5
    case Transpose3f => 6
    case MultiplyMatrix3f => 7
    case MultiplyVector3f => 8
    case Transpose3d => 9
    case MultiplyMatrix3d => 10
    case MultiplyVector3d => 11
    case Transpose4d => 12
    case MultiplyMatrix4d => 13
    case MultiplyVector4d => 14
    case TransformPoint4d => 15
    case TransformDirection4d => 16
  }

  /** These have no right operand. */
  predicate Transposes(m: MatrixOperation) {
    m.Transpose? || m.Transpose3f? || m.Transpose3d? || m.Transpose4d?
  }

  // ---- the decoder's tables agree ----

  lemma {:induction false} BasicLayouts(b: Basic)
    ensures Layout(BasicOpcode(b)) == Some(BasicFields(b))
    ensures 0x00 <= BasicOpcode(b) <= 0x06
  {
  }

  lemma {:induction false} ArithmeticLayouts(a: Arithmetic)
    ensures Layout(ArithmeticOpcode(a)) == Some(ArithmeticFields(a))
    ensures 0x10 <= ArithmeticOpcode(a) <= 0x1E
  {
  }

  lemma {:induction false} ComparisonLayouts(c: Comparison)
    ensures Layout(ComparisonOpcode(c)) == Some(ComparisonFields(c))
    ensures 0x20 <= ComparisonOpcode(c) <= 0x27
  {
  }

  lemma {:induction false} MemoryLayouts(y: Memory)
    ensures Layout(MemoryOpcode(y)) == Some(MemoryFields(y))
    ensures 0x30 <= MemoryOpcode(y) <= 0x3B
  {
  }

  lemma {:induction false} CallingLayouts(k: Calling)
    ensures Layout(CallingOpcode(k)) == Some(CallingFields(k))
    ensures 0x40 <= CallingOpcode(k) <= 0x42 || 0x50 <= CallingOpcode(k) <= 0x52
  {
  }

  lemma {:induction false} TextLayouts(x: Text)
    ensures Layout(TextOpcode(x)) == Some(TextFields(x))
    ensures 0x60 <= TextOpcode(x) <= 0x69
  {
  }

  lemma {:induction false} ControlLayouts(t: Control)
    ensures Layout(ControlOpcode(t)) == Some(ControlFields(t))
    ensures 0xE0 <= ControlOpcode(t) <= 0xEB || ControlOpcode(t) == 0xFF
  {
  }

  /** The decoder reads every instruction with the operands it is written with. */
  lemma {:induction false} LayoutIsFields(m: Mnemonic)
    ensures Layout(Opcode(m)) == Some(Fields(m))
  {
    match m
    case OfBasic(b) => BasicLayouts(b);
    case OfArithmetic(a) => ArithmeticLayouts(a);
    case OfComparison(c) => ComparisonLayouts(c);
    case OfMemory(y) => MemoryLayouts(y);
    case OfCalling(k) => CallingLayouts(k);
    case OfText(x) => TextLayouts(x);
    case OfControl(t) => ControlLayouts(t);
  }

  lemma {:induction false} BasicNames(opcode: Byte) returns (b: Basic)
    requires 0x00 <= opcode <= 0x06
    ensures BasicOpcode(b) == opcode
  {
    b :=
      if opcode == 0x00 then Nop
      else if opcode == 0x01 then Move
      else if opcode == 0x02 then Const
      else if opcode == 0x03 then Null
      else if opcode == 0x04 then Convert
      else if opcode == 0x05 then InlineConstruct
      else InlineComponent;
  }

  lemma {:induction false} ArithmeticNames(opcode: Byte) returns (a: Arithmetic)
    requires 0x10 <= opcode <= 0x1E
    ensures ArithmeticOpcode(a) == opcode
  {
    a :=
      if opcode == 0x10 then Add
      else if opcode == 0x11 then Sub
      else if opcode == 0x12 then Mul
      else if opcode == 0x13 then Div
      else if opcode == 0x14 then Rem
      else if opcode == 0x15 then Neg
      else if opcode == 0x16 then BitAnd
      else if opcode == 0x17 then BitOr
      else if opcode == 0x18 then BitXor
      else if opcode == 0x19 then ShiftLeft
      else if opcode == 0x1A then ShiftRight
      else if opcode == 0x1B then ShiftUnsigned
      else if opcode == 0x1C then MathUnary
      else if opcode == 0x1D then MathBinary
      else MatrixMath;
  }

  lemma {:induction false} ComparisonNames(opcode: Byte) returns (c: Comparison)
    requires 0x20 <= opcode <= 0x27
    ensures ComparisonOpcode(c) == opcode
  {
    c :=
      if opcode == 0x20 then Equal
      else if opcode == 0x21 then NotEqual
      else if opcode == 0x22 then Less
      else if opcode == 0x23 then LessEqual
      else if opcode == 0x24 then Greater
      else if opcode == 0x25 then GreaterEqual
      else if opcode == 0x26 then RefEqual
      else RefNotEqual;
  }

  lemma {:induction false} MemoryNames(opcode: Byte) returns (y: Memory)
    requires 0x30 <= opcode <= 0x3B
    ensures MemoryOpcode(y) == opcode
  {
    y :=
      if opcode == 0x30 then NewObject
      else if opcode == 0x31 then NewArray
      else if opcode == 0x32 then ArrayLength
      else if opcode == 0x33 then ArrayLoad
      else if opcode == 0x34 then ArrayStore
      else if opcode == 0x35 then FieldGet
      else if opcode == 0x36 then FieldSet
      else if opcode == 0x37 then StaticGet
      else if opcode == 0x38 then StaticSet
      else if opcode == 0x39 then IsType
      else if opcode == 0x3A then CheckedCast
      else ArrayCopy;
  }

  lemma {:induction false} CallingNames(opcode: Byte) returns (k: Calling)
    requires 0x40 <= opcode <= 0x42 || 0x50 <= opcode <= 0x52
    ensures CallingOpcode(k) == opcode
  {
    k :=
      if opcode == 0x40 then CallDirect
      else if opcode == 0x41 then CallVirtual
      else if opcode == 0x42 then CallInterface
      else if opcode == 0x50 then CoroutineSpawn
      else if opcode == 0x51 then CapabilityCallSync
      else ChannelCreate;
  }

  lemma {:induction false} TextNames(opcode: Byte) returns (x: Text)
    requires 0x60 <= opcode <= 0x69
    ensures TextOpcode(x) == opcode
  {
    x :=
      if opcode == 0x60 then StringLength
      else if opcode == 0x61 then StringGet
      else if opcode == 0x62 then StringEquals
      else if opcode == 0x63 then StringCompare
      else if opcode == 0x64 then StringHash
      else if opcode == 0x65 then StringConcat
      else if opcode == 0x66 then StringSubstring
      else if opcode == 0x67 then StringFromCharArray
      else if opcode == 0x68 then StringValueOf
      else ValueHash;
  }

  lemma {:induction false} ControlNames(opcode: Byte) returns (t: Control)
    requires 0xE0 <= opcode <= 0xEB || opcode == 0xFF
    ensures ControlOpcode(t) == opcode
  {
    t :=
      if opcode == 0xE0 then Jump
      else if opcode == 0xE1 then Branch
      else if opcode == 0xE2 then SwitchI32
      else if opcode == 0xE3 then Return
      else if opcode == 0xE4 then Throw
      else if opcode == 0xE5 then CallSuspend
      else if opcode == 0xE6 then Yield
      else if opcode == 0xE7 then Sleep
      else if opcode == 0xE8 then CoroutineJoin
      else if opcode == 0xE9 then CapabilityCallAsync
      else if opcode == 0xEA then ChannelSend
      else if opcode == 0xEB then ChannelReceive
      else Unreachable;
  }

  /** The opcodes in use lie in nine runs. */
  predicate InUse(opcode: Byte) {
    || 0 <= opcode <= 0x06 || 0x10 <= opcode <= 0x1E || 0x20 <= opcode <= 0x27 || 0x30 <= opcode <= 0x3B
    || 0x40 <= opcode <= 0x42 || 0x50 <= opcode <= 0x52 || 0x60 <= opcode <= 0x69 || 0xE0 <= opcode <= 0xEB
    || opcode == 0xFF
  }

  lemma {:induction false} KnownIsInUse(opcode: Byte)
    requires Layout(opcode).Some?
    ensures InUse(opcode)
  {
  }

  /** And it knows no other opcode. */
  lemma {:induction false} EveryOpcodeIsNamed(opcode: Byte) returns (m: Mnemonic)
    requires Layout(opcode).Some?
    ensures Opcode(m) == opcode
  {
    KnownIsInUse(opcode);
    if opcode <= 0x06 {
      var b := BasicNames(opcode);
      m := OfBasic(b);
    } else if opcode <= 0x1E {
      var a := ArithmeticNames(opcode);
      m := OfArithmetic(a);
    } else if opcode <= 0x27 {
      var c := ComparisonNames(opcode);
      m := OfComparison(c);
    } else if opcode <= 0x3B {
      var y := MemoryNames(opcode);
      m := OfMemory(y);
    } else if opcode <= 0x52 {
      var k := CallingNames(opcode);
      m := OfCalling(k);
    } else if opcode <= 0x69 {
      var x := TextNames(opcode);
      m := OfText(x);
    } else {
      var t := ControlNames(opcode);
      m := OfControl(t);
    }
  }

  /** No two instructions share an opcode. */
  lemma {:induction false} OpcodesDiffer(m: Mnemonic, n: Mnemonic)
    requires Opcode(m) == Opcode(n)
    ensures m == n
  {
  }

  /** The forms it accepts are those of the instruction. */
  lemma {:induction false} FormsAgree(m: Mnemonic, form: Byte)
    ensures ValidForm(Opcode(m), form) <==> HasForm(m, form)
  {
  }

  /** Blocks end at the instructions that end them. */
  lemma {:induction false} TerminatorsAgree(m: Mnemonic, i: Instruction)
    requires i.opcode == Opcode(m)
    ensures IsTerminator(i) <==> EndsBlock(m)
  {
    match m
    case OfBasic(b) => BasicLayouts(b);
    case OfArithmetic(a) => ArithmeticLayouts(a);
    case OfComparison(c) => ComparisonLayouts(c);
    case OfMemory(y) => MemoryLayouts(y);
    case OfCalling(k) => CallingLayouts(k);
    case OfText(x) => TextLayouts(x);
    case OfControl(t) => ControlLayouts(t);
  }

  /** The matrix operations without a right operand are the transpositions. */
  lemma {:induction false} TransposesAgree(m: MatrixOperation)
    ensures 1 <= Selector(m) <= 16 && (IsTranspose(Selector(m)) <==> Transposes(m))
  {
  }

  // ---- encodings that are known byte by byte ----

  lemma {:induction false} KnownWords()
    ensures EncodeLe(0xFFFF, 2) == [0xFF, 0xFF] && EncodeLe(0, 2) == [0, 0] && EncodeLe(1, 2) == [1, 0]
    ensures EncodeLe(6, 2) == [6, 0] && EncodeLe(12, 2) == [12, 0] && EncodeLe(18, 2) == [18, 0]
    ensures EncodeLe(0, 4) == [0, 0, 0, 0] && EncodeLe(1, 4) == [1, 0, 0, 0]
    ensures EncodeLe(0x1234, 2) == [0x34, 0x12] && EncodeUleb(624485) == [0xE5, 0x8E, 0x26]
  {
    assert EncodeLe(0xFF, 1) == [0xFF] && EncodeLe(0x12, 1) == [0x12] && EncodeLe(0, 1) == [0];
    assert EncodeLe(0, 3) == [0] + EncodeLe(0, 2);
    assert EncodeUleb(4878) == [0x8E] + EncodeUleb(38);
  }

  /** Returning nothing: the absent register. */
  lemma {:induction false} KnownReturn()
    ensures EncodeInstruction(Instruction(0xE3, 0, [Number(0xFFFF)])) == [0xE3, 0, 6, 0, 0xFF, 0xFF]
  {
    KnownWords();
    assert [Number(0xFFFF)][..0] == [];
    assert EncodeOperands([OptionalReg], [Number(0xFFFF)]) == EncodeRegister(0xFFFF);
  }

  lemma {:induction false} ThreeOperands(kinds: seq<Kind>, a: Operand, b: Operand, c: Operand)
    requires |kinds| == 3
    ensures EncodeOperands(kinds, [a, b, c])
            == EncodeOperand(kinds[0], a) + EncodeOperand(kinds[1], b) + EncodeOperand(kinds[2], c)
  {
    assert [a, b, c][..2] == [a, b] && [a, b][..1] == [a] && [a][..0] == [];
    assert EncodeOperands(kinds, [a]) == EncodeOperand(kinds[0], a);
    assert EncodeOperands(kinds, [a, b]) == EncodeOperand(kinds[0], a) + EncodeOperand(kinds[1], b);
  }

  lemma {:induction false} KnownArguments()
    ensures EncodeOperand(Args, Registers([0, 1])) == [2, 0, 0, 1, 0]
  {
    KnownWords();
    var registers: seq<nat> := [0, 1];
    assert registers[1..] == [1] && [1][1..] == [];
    assert Concat(EncodeRegister, registers) == EncodeRegister(0) + (EncodeRegister(1) + []);
  }

  lemma {:induction false} KnownCases()
    ensures EncodeOperand(Cases, CaseTable([SwitchCase(0, 0), SwitchCase(1, 1)])) == [2, 0, 0, 0, 0, 0, 1, 0, 0, 0, 1]
  {
    KnownWords();
    var cases := [SwitchCase(0, 0), SwitchCase(1, 1)];
    assert cases[1..] == [SwitchCase(1, 1)] && [SwitchCase(1, 1)][1..] == [];
    assert EncodeCase(cases[0]) == [0, 0, 0, 0, 0] && EncodeCase(cases[1]) == [1, 0, 0, 0, 1];
    assert Concat(EncodeCase, cases) == EncodeCase(cases[0]) + (EncodeCase(cases[1]) + []);
  }

  /** An instruction of three operands, byte by byte. */
  lemma {:induction false} ThreeOperandBytes(opcode: Byte, kinds: seq<Kind>, a: Operand, b: Operand, c: Operand,
                                             bytes: seq<Byte>)
    requires Layout(opcode) == Some(kinds) && |kinds| == 3
    requires bytes == EncodeOperand(kinds[0], a) + EncodeOperand(kinds[1], b) + EncodeOperand(kinds[2], c)
    ensures EncodeInstruction(Instruction(opcode, 0, [a, b, c])) == [opcode, 0] + EncodeLe(|bytes| + 4, 2) + bytes
  {
    ThreeOperands(kinds, a, b, c);
  }

  /** A call of function 0 with registers 0 and 1 that keeps no result. */
  lemma {:induction false} KnownCall()
    ensures EncodeInstruction(Instruction(0x40, 0, [Number(0xFFFF), Number(0), Registers([0, 1])]))
            == [0x40, 0] + [12, 0] + ([0xFF, 0xFF] + [0] + [2, 0, 0, 1, 0])
  {
    KnownWords();
    KnownArguments();
    ThreeOperandBytes(0x40, [OptionalReg, Kind.Id, Args], Number(0xFFFF), Number(0), Registers([0, 1]),
                      [0xFF, 0xFF] + [0] + [2, 0, 0, 1, 0]);
  }

  /** A switch on register 0: to block 0 by default and for 0, and to block 1 for 1. */
  lemma {:induction false} KnownSwitch()
    ensures var cases := CaseTable([SwitchCase(0, 0), SwitchCase(1, 1)]);
            EncodeInstruction(Instruction(0xE2, 0, [Number(0), Number(0), cases]))
            == [0xE2, 0] + [18, 0] + ([0, 0] + [0] + [2, 0, 0, 0, 0, 0, 1, 0, 0, 0, 1])
  {
    KnownWords();
    KnownCases();
    var cases := CaseTable([SwitchCase(0, 0), SwitchCase(1, 1)]);
    ThreeOperandBytes(0xE2, [Reg, Kind.Id, Cases], Number(0), Number(0), cases,
                      [0, 0] + [0] + [2, 0, 0, 0, 0, 0, 1, 0, 0, 0, 1]);
  }

  /** The absent register is allowed only where a register is optional. */
  lemma {:induction false} AbsentOnlyWhereOptional(transpose: bool, limits: Limits)
    ensures Legal(OptionalReg, transpose, limits, Number(0xFFFF)) && !Legal(Reg, transpose, limits, Number(0xFFFF))
    ensures Legal(Reg, transpose, limits, Number(0xFFFE)) && !Legal(OptionalReg, transpose, limits, Number(0x1_0000))
  {
  }
}
