/** The two instruction encoders, the decoder, and the bytes of a program. */
module Codec {
  import opened Options
  import opened ByteOrder

  type U16 = n: nat | n < 0x1_0000
  type I16 = n: int | -0x8000 <= n < 0x8000

  datatype Insn =
    | Nop
    | Break
    | Move(d: Byte, a: Byte)
    | LoadK(d: Byte, k: U16)
    | LoadInt(d: Byte, imm: I16)
    | LoadNil(d: Byte)
    | LoadTrue(d: Byte)
    | LoadFalse(d: Byte)
    | LoadSelf(d: Byte)
    | GetIvar(d: Byte, i: Byte)
    | SetIvar(i: Byte, a: Byte)
    | GetBox(d: Byte, a: Byte)
    | SetBox(a: Byte, b: Byte)
    | MkBox(d: Byte, a: Byte)
    | Send(d: Byte, r: Byte, site: Byte)
    | SendSuper(d: Byte, r: Byte, site: Byte)
    | Ret(a: Byte)
    | RetSelf
    | Nlr(a: Byte)
    | Prim(n: U16)
    | MkClosure(d: Byte, block: U16)
    | Capture(c: Byte, a: Byte)
    | Jump(off: I16)
    | JumpTrue(a: Byte, off: I16)
    | JumpFalse(a: Byte, off: I16)
    | Add(d: Byte, a: Byte, b: Byte)
    | Sub(d: Byte, a: Byte, b: Byte)
    | Mul(d: Byte, a: Byte, b: Byte)
    | Div(d: Byte, a: Byte, b: Byte)
    | Mod(d: Byte, a: Byte, b: Byte)
    | Lt(d: Byte, a: Byte, b: Byte)
    | Gt(d: Byte, a: Byte, b: Byte)
    | Le(d: Byte, a: Byte, b: Byte)
    | Ge(d: Byte, a: Byte, b: Byte)
    | EqNum(d: Byte, a: Byte, b: Byte)
    | At(d: Byte, a: Byte, b: Byte)
    | AtPut(d: Byte, a: Byte, b: Byte)
    | Size(d: Byte, a: Byte)
    | ClassOf(d: Byte, a: Byte)
    | Not(d: Byte, a: Byte)
    | IdEq(d: Byte, a: Byte, b: Byte)

  const OP_NOP: nat := 0x00
  const OP_BREAK: nat := 0x01
  const OP_MOVE: nat := 0x10
  const OP_LOADK: nat := 0x11
  const OP_LOADINT: nat := 0x12
  const OP_LOADNIL: nat := 0x13
  const OP_LOADTRUE: nat := 0x14
  const OP_LOADFALSE: nat := 0x15
  const OP_LOADSELF: nat := 0x16
  const OP_GETIVAR: nat := 0x17
  const OP_SETIVAR: nat := 0x18
  const OP_GETBOX: nat := 0x19
  const OP_SETBOX: nat := 0x1A
  const OP_MKBOX: nat := 0x1B
  const OP_SEND: nat := 0x20
  const OP_SENDSUPER: nat := 0x21
  const OP_RET: nat := 0x22
  const OP_RETSELF: nat := 0x23
  const OP_NLR: nat := 0x24
  const OP_PRIM: nat := 0x25
  const OP_MKCLOSURE: nat := 0x26
  const OP_CAPTURE: nat := 0x27
  const OP_JUMP: nat := 0x28
  const OP_JUMPTRUE: nat := 0x29
  const OP_JUMPFALSE: nat := 0x2A
  const OP_ADD: nat := 0x30
  const OP_SUB: nat := 0x31
  const OP_MUL: nat := 0x32
  const OP_DIV: nat := 0x33
  const OP_MOD: nat := 0x34
  const OP_LT: nat := 0x35
  const OP_GT: nat := 0x36
  const OP_LE: nat := 0x37
  const OP_GE: nat := 0x38
  const OP_EQNUM: nat := 0x39
  const OP_AT: nat := 0x40
  const OP_ATPUT: nat := 0x41
  const OP_SIZE: nat := 0x42
  const OP_CLASSOF: nat := 0x43
  const OP_NOT: nat := 0x44
  const OP_IDEQ: nat := 0x45

  // ---------- the virtual machine's codec ----------

  function Abc(op: Byte, a: Byte, b: Byte, c: Byte): nat {
    op + 0x100 * a + 0x1_0000 * b + 0x100_0000 * c
  }

  function Ad(op: Byte, a: Byte, d: U16): nat {
    op + 0x100 * a + 0x1_0000 * d
  }

  /** The unsigned 16-bit word of a signed one. */
  function AsU16(n: I16): U16 {
    n % 0x1_0000
  }

  function AsI16(n: U16): I16 {
    if n < 0x8000 then n else n - 0x1_0000
  }

  function Encode(insn: Insn): nat {
    match insn
    case Nop => Abc(OP_NOP, 0, 0, 0)
    case Break => Abc(OP_BREAK, 0, 0, 0)
    case Move(d, a) => Abc(OP_MOVE, d, a, 0)
    case LoadK(d, k) => Ad(OP_LOADK, d, k)
    case LoadInt(d, imm) => Ad(OP_LOADINT, d, AsU16(imm))
    case LoadNil(d) => Ad(OP_LOADNIL, d, 0)
    case LoadTrue(d) => Ad(OP_LOADTRUE, d, 0)
    case LoadFalse(d) => Ad(OP_LOADFALSE, d, 0)
    case LoadSelf(d) => Ad(OP_LOADSELF, d, 0)
    case GetIvar(d, i) => Abc(OP_GETIVAR, d, i, 0)
    case SetIvar(i, a) => Abc(OP_SETIVAR, i, a, 0)
    case GetBox(d, a) => Abc(OP_GETBOX, d, a, 0)
    case SetBox(a, b) => Abc(OP_SETBOX, a, b, 0)
    case MkBox(d, a) => Abc(OP_MKBOX, d, a, 0)
    case Send(d, r, site) => Abc(OP_SEND, d, r, site)
    case SendSuper(d, r, site) => Abc(OP_SENDSUPER, d, r, site)
    case Ret(a) => Ad(OP_RET, a, 0)
    case RetSelf => Ad(OP_RETSELF, 0, 0)
    case Nlr(a) => Ad(OP_NLR, a, 0)
    case Prim(n) => Ad(OP_PRIM, 0, n)
    case MkClosure(d, block) => Ad(OP_MKCLOSURE, d, block)
    case Capture(c, a) => Abc(OP_CAPTURE, c, a, 0)
    case Jump(off) => Ad(OP_JUMP, 0, AsU16(off))
    case JumpTrue(a, off) => Ad(OP_JUMPTRUE, a, AsU16(off))
    case JumpFalse(a, off) => Ad(OP_JUMPFALSE, a, AsU16(off))
    case Add(d, a, b) => Abc(OP_ADD, d, a, b)
    case Sub(d, a, b) => Abc(OP_SUB, d, a, b)
    case Mul(d, a, b) => Abc(OP_MUL, d, a, b)
    case Div(d, a, b) => Abc(OP_DIV, d, a, b)
    case Mod(d, a, b) => Abc(OP_MOD, d, a, b)
    case Lt(d, a, b) => Abc(OP_LT, d, a, b)
    case Gt(d, a, b) => Abc(OP_GT, d, a, b)
    case Le(d, a, b) => Abc(OP_LE, d, a, b)
    case Ge(d, a, b) => Abc(OP_GE, d, a, b)
    case EqNum(d, a, b) => Abc(OP_EQNUM, d, a, b)
    case At(d, a, b) => Abc(OP_AT, d, a, b)
    case AtPut(d, a, b) => Abc(OP_ATPUT, d, a, b)
    case Size(d, a) => Abc(OP_SIZE, d, a, 0)
    case ClassOf(d, a) => Abc(OP_CLASSOF, d, a, 0)
    case Not(d, a) => Abc(OP_NOT, d, a, 0)
    case IdEq(d, a, b) => Abc(OP_IDEQ, d, a, b)
  }

  /** The instruction with the given opcode and operand fields. */
  function DecodeFields(op: Byte, a: Byte, b: Byte, c: Byte, d16: U16): Option<Insn> {
    if op == OP_NOP then Some(Nop)
    else if op == OP_BREAK then Some(Break)
    else if op == OP_MOVE then Some(Move(a, b))
    else if op == OP_LOADK then Some(LoadK(a, d16))
    else if op == OP_LOADINT then Some(LoadInt(a, AsI16(d16)))
    else if op == OP_LOADNIL then Some(LoadNil(a))
    else if op == OP_LOADTRUE then Some(LoadTrue(a))
    else if op == OP_LOADFALSE then Some(LoadFalse(a))
    else if op == OP_LOADSELF then Some(LoadSelf(a))
    else if op == OP_GETIVAR then Some(GetIvar(a, b))
    else if op == OP_SETIVAR then Some(SetIvar(a, b))
    else if op == OP_GETBOX then Some(GetBox(a, b))
    else if op == OP_SETBOX then Some(SetBox(a, b))
    else if op == OP_MKBOX then Some(MkBox(a, b))
    else if op == OP_SEND then Some(Send(a, b, c))
    else if op == OP_SENDSUPER then Some(SendSuper(a, b, c))
    else if op == OP_RET then Some(Ret(a))
    else if op == OP_RETSELF then Some(RetSelf)
    else if op == OP_NLR then Some(Nlr(a))
    else if op == OP_PRIM then Some(Prim(d16))
    else if op == OP_MKCLOSURE then Some(MkClosure(a, d16))
    else if op == OP_CAPTURE then Some(Capture(a, b))
    else if op == OP_JUMP then Some(Jump(AsI16(d16)))
    else if op == OP_JUMPTRUE then Some(JumpTrue(a, AsI16(d16)))
    else if op == OP_JUMPFALSE then Some(JumpFalse(a, AsI16(d16)))
    else if op == OP_ADD then Some(Add(a, b, c))
    else if op == OP_SUB then Some(Sub(a, b, c))
    else if op == OP_MUL then Some(Mul(a, b, c))
    else if op == OP_DIV then Some(Div(a, b, c))
    else if op == OP_MOD then Some(Mod(a, b, c))
    else if op == OP_LT then Some(Lt(a, b, c))
    else if op == OP_GT then Some(Gt(a, b, c))
    else if op == OP_LE then Some(Le(a, b, c))
    else if op == OP_GE then Some(Ge(a, b, c))
    else if op == OP_EQNUM then Some(EqNum(a, b, c))
    else if op == OP_AT then Some(At(a, b, c))
    else if op == OP_ATPUT then Some(AtPut(a, b, c))
    else if op == OP_SIZE then Some(Size(a, b))
    else if op == OP_CLASSOF then Some(ClassOf(a, b))
    else if op == OP_NOT then Some(Not(a, b))
    else if op == OP_IDEQ then Some(IdEq(a, b, c))
    else None
  }

  function Decode(word: nat): Option<Insn> {
    DecodeFields(word % 0x100, word / 0x100 % 0x100, word / 0x1_0000 % 0x100, word / 0x100_0000 % 0x100, word / 0x1_0000 % 0x1_0000)
  }

  function Assemble(insns: seq<Insn>): seq<nat> {
    if insns == [] then [] else [Encode(insns[0])] + Assemble(insns[1..])
  }

  /** `None` is the panic on a word that is no instruction. */
  function Disassemble(words: seq<nat>): Option<seq<Insn>> {
    if words == [] then Some([])
    else
      match Decode(words[0])
      case None => None
      case Some(i) =>
        match Disassemble(words[1..])
        case None => None
        case Some(rest) => Some([i] + rest)
  }

  lemma AbcFields(op: Byte, a: Byte, b: Byte, c: Byte)
    ensures var w := Abc(op, a, b, c);
      && w < 0x1_0000_0000 && w % 0x100 == op && w / 0x100 % 0x100 == a && w / 0x1_0000 % 0x100 == b && w / 0x100_0000 % 0x100 == c
  {
    var w := Abc(op, a, b, c);
    assert w / 0x100 == a + 0x100 * b + 0x1_0000 * c;
    assert w / 0x1_0000 == b + 0x100 * c;
    assert w / 0x100_0000 == c;
  }

  lemma AdFields(op: Byte, a: Byte, d: U16)
    ensures var w := Ad(op, a, d);
      w < 0x1_0000_0000 && w % 0x100 == op && w / 0x100 % 0x100 == a && w / 0x1_0000 % 0x1_0000 == d
  {
    var w := Ad(op, a, d);
    assert w / 0x100 == a + 0x100 * d;
    assert w / 0x1_0000 == d;
  }

  lemma SignedRoundTrip(n: I16)
    ensures AsI16(AsU16(n)) == n
  {
  }

  predicate IsMoves(insn: Insn) {
    insn.Nop? || insn.Break? || insn.Move? || insn.LoadK? || insn.LoadInt?
  }

  predicate IsConstants(insn: Insn) {
    insn.LoadNil? || insn.LoadTrue? || insn.LoadFalse? || insn.LoadSelf?
  }

  predicate IsVariables(insn: Insn) {
    insn.GetIvar? || insn.SetIvar? || insn.GetBox? || insn.SetBox? || insn.MkBox?
  }

  predicate IsSends(insn: Insn) {
    insn.Send? || insn.SendSuper? || insn.Ret? || insn.RetSelf? || insn.Nlr?
  }

  predicate IsBlocks(insn: Insn) {
    insn.Prim? || insn.MkClosure? || insn.Capture?
  }

  predicate IsJumps(insn: Insn) {
    insn.Jump? || insn.JumpTrue? || insn.JumpFalse?
  }

  predicate IsArithmetic(insn: Insn) {
    insn.Add? || insn.Sub? || insn.Mul? || insn.Div? || insn.Mod?
  }

  predicate IsComparisons(insn: Insn) {
    insn.Lt? || insn.Gt? || insn.Le? || insn.Ge? || insn.EqNum?
  }

  predicate IsIndexing(insn: Insn) {
    insn.At? || insn.AtPut? || insn.Size?
  }

  predicate IsTests(insn: Insn) {
    insn.ClassOf? || insn.Not? || insn.IdEq?
  }

  lemma MovesRoundTrip(insn: Insn)
    requires IsMoves(insn)
    ensures Decode(Encode(insn)) == Some(insn) && Encode(insn) < 0x1_0000_0000
  {
    hide Abc, Ad, AsU16, AsI16;
    match insn
    case Nop => AbcFields(OP_NOP, 0, 0, 0);
    case Break => AbcFields(OP_BREAK, 0, 0, 0);
    case Move(d, a) => AbcFields(OP_MOVE, d, a, 0);
    case LoadK(d, k) => AdFields(OP_LOADK, d, k);
    case LoadInt(d, imm) => AdFields(OP_LOADINT, d, AsU16(imm)); SignedRoundTrip(imm);
  }

  lemma ConstantsRoundTrip(insn: Insn)
    requires IsConstants(insn)
    ensures Decode(Encode(insn)) == Some(insn) && Encode(insn) < 0x1_0000_0000
  {
    hide Abc, Ad, AsU16, AsI16;
    match insn
    case LoadNil(d) => AdFields(OP_LOADNIL, d, 0);
    case LoadTrue(d) => AdFields(OP_LOADTRUE, d, 0);
    case LoadFalse(d) => AdFields(OP_LOADFALSE, d, 0);
    case LoadSelf(d) => AdFields(OP_LOADSELF, d, 0);
  }

  lemma VariablesRoundTrip(insn: Insn)
    requires IsVariables(insn)
    ensures Decode(Encode(insn)) == Some(insn) && Encode(insn) < 0x1_0000_0000
  {
    hide Abc, Ad, AsU16, AsI16;
    match insn
    case GetIvar(d, i) => AbcFields(OP_GETIVAR, d, i, 0);
    case SetIvar(i, a) => AbcFields(OP_SETIVAR, i, a, 0);
    case GetBox(d, a) => AbcFields(OP_GETBOX, d, a, 0);
    case SetBox(a, b) => AbcFields(OP_SETBOX, a, b, 0);
    case MkBox(d, a) => AbcFields(OP_MKBOX, d, a, 0);
  }

  lemma SendsRoundTrip(insn: Insn)
    requires IsSends(insn)
    ensures Decode(Encode(insn)) == Some(insn) && Encode(insn) < 0x1_0000_0000
  {
    hide Abc, Ad, AsU16, AsI16;
    match insn
    case Send(d, r, site) => AbcFields(OP_SEND, d, r, site);
    case SendSuper(d, r, site) => AbcFields(OP_SENDSUPER, d, r, site);
    case Ret(a) => AdFields(OP_RET, a, 0);
    case RetSelf => AdFields(OP_RETSELF, 0, 0);
    case Nlr(a) => AdFields(OP_NLR, a, 0);
  }

  lemma BlocksRoundTrip(insn: Insn)
    requires IsBlocks(insn)
    ensures Decode(Encode(insn)) == Some(insn) && Encode(insn) < 0x1_0000_0000
  {
    hide Abc, Ad, AsU16, AsI16;
    match insn
    case Prim(n) => AdFields(OP_PRIM, 0, n);
    case MkClosure(d, block) => AdFields(OP_MKCLOSURE, d, block);
    case Capture(c, a) => AbcFields(OP_CAPTURE, c, a, 0);
  }

  lemma JumpsRoundTrip(insn: Insn)
    requires IsJumps(insn)
    ensures Decode(Encode(insn)) == Some(insn) && Encode(insn) < 0x1_0000_0000
  {
    hide Abc, Ad, AsU16, AsI16;
    match insn
    case Jump(off) => AdFields(OP_JUMP, 0, AsU16(off)); SignedRoundTrip(off);
    case JumpTrue(a, off) => AdFields(OP_JUMPTRUE, a, AsU16(off)); SignedRoundTrip(off);
    case JumpFalse(a, off) => AdFields(OP_JUMPFALSE, a, AsU16(off)); SignedRoundTrip(off);
  }

  lemma ArithmeticRoundTrip(insn: Insn)
    requires IsArithmetic(insn)
    ensures Decode(Encode(insn)) == Some(insn) && Encode(insn) < 0x1_0000_0000
  {
    hide Abc, Ad, AsU16, AsI16;
    match insn
    case Add(d, a, b) => AbcFields(OP_ADD, d, a, b);
    case Sub(d, a, b) => AbcFields(OP_SUB, d, a, b);
    case Mul(d, a, b) => AbcFields(OP_MUL, d, a, b);
    case Div(d, a, b) => AbcFields(OP_DIV, d, a, b);
    case Mod(d, a, b) => AbcFields(OP_MOD, d, a, b);
  }

  lemma ComparisonsRoundTrip(insn: Insn)
    requires IsComparisons(insn)
    ensures Decode(Encode(insn)) == Some(insn) && Encode(insn) < 0x1_0000_0000
  {
    hide Abc, Ad, AsU16, AsI16;
    match insn
    case Lt(d, a, b) => AbcFields(OP_LT, d, a, b);
    case Gt(d, a, b) => AbcFields(OP_GT, d, a, b);
    case Le(d, a, b) => AbcFields(OP_LE, d, a, b);
    case Ge(d, a, b) => AbcFields(OP_GE, d, a, b);
    case EqNum(d, a, b) => AbcFields(OP_EQNUM, d, a, b);
  }

  lemma IndexingRoundTrip(insn: Insn)
    requires IsIndexing(insn)
    ensures Decode(Encode(insn)) == Some(insn) && Encode(insn) < 0x1_0000_0000
  {
    hide Abc, Ad, AsU16, AsI16;
    match insn
    case At(d, a, b) => AbcFields(OP_AT, d, a, b);
    case AtPut(d, a, b) => AbcFields(OP_ATPUT, d, a, b);
    case Size(d, a) => AbcFields(OP_SIZE, d, a, 0);
  }

  lemma TestsRoundTrip(insn: Insn)
    requires IsTests(insn)
    ensures Decode(Encode(insn)) == Some(insn) && Encode(insn) < 0x1_0000_0000
  {
    hide Abc, Ad, AsU16, AsI16;
    match insn
    case ClassOf(d, a) => AbcFields(OP_CLASSOF, d, a, 0);
    case Not(d, a) => AbcFields(OP_NOT, d, a, 0);
    case IdEq(d, a, b) => AbcFields(OP_IDEQ, d, a, b);
  }

  /** Decoding an encoded instruction gives it back. */
  lemma InsnRoundTrip(insn: Insn)
    ensures Decode(Encode(insn)) == Some(insn) && Encode(insn) < 0x1_0000_0000
  {
    hide Encode, Decode;
    if IsMoves(insn) {
      MovesRoundTrip(insn);
    } else if IsConstants(insn) {
      ConstantsRoundTrip(insn);
    } else if IsVariables(insn) {
      VariablesRoundTrip(insn);
    } else if IsSends(insn) {
      SendsRoundTrip(insn);
    } else if IsBlocks(insn) {
      BlocksRoundTrip(insn);
    } else if IsJumps(insn) {
      JumpsRoundTrip(insn);
    } else if IsArithmetic(insn) {
      ArithmeticRoundTrip(insn);
    } else if IsComparisons(insn) {
      ComparisonsRoundTrip(insn);
    } else if IsIndexing(insn) {
      IndexingRoundTrip(insn);
    } else {
      TestsRoundTrip(insn);
    }
  }

  /** Disassembling an assembled program gives it back. */
  lemma {:induction false} ProgramRoundTrip(insns: seq<Insn>)
    ensures Disassemble(Assemble(insns)) == Some(insns)
  {
    hide Encode, Decode;
    if insns != [] {
      InsnRoundTrip(insns[0]);
      ProgramRoundTrip(insns[1..]);
      assert Assemble(insns)[1..] == Assemble(insns[1..]);
      assert [insns[0]] + insns[1..] == insns;
    }
  }

  // ---------- the image-side encoder ----------

  /** An instruction as the compiler hands it over: a mnemonic and its operands. */
  datatype Tuple = Tuple(mnemonic: string, operands: seq<int>)

  /** Size, first and last character. */
  function MnemonicKey(mnemonic: string): nat
    requires mnemonic != []
  {
    |mnemonic| * 0x1_0000 + mnemonic[0] as nat * 0x100 + mnemonic[|mnemonic| - 1] as nat
  }

  function OpcodeForKey(key: nat): Option<nat> {
    if key == 281925 then Some(OP_MOVE)
    else if key == 283460 then Some(OP_SEND)
    else if key == 217684 then Some(OP_RET)
    else if key == 608837 then Some(OP_JUMPFALSE)
    else if key == 477010 then Some(OP_GETIVAR)
    else if key == 543814 then Some(OP_LOADSELF)
    else if key == 478284 then Some(OP_LOADNIL)
    else if key == 281168 then Some(OP_JUMP)
    else if key == 283461 then Some(OP_SIZE)
    else if key == 478292 then Some(OP_LOADINT)
    else if key == 280913 then Some(OP_IDEQ)
    else if key == 147796 then Some(OP_AT)
    else if key == 213316 then Some(OP_ADD)
    else if key == 150597 then Some(OP_LE)
    else if key == 345421 then Some(OP_EQNUM)
    else if key == 347211 then Some(OP_LOADK)
    else if key == 543301 then Some(OP_JUMPTRUE)
    else if key == 609349 then Some(OP_LOADFALSE)
    else if key == 543813 then Some(OP_LOADTRUE)
    else if key == 475974 then Some(OP_CLASSOF)
    else if key == 344404 then Some(OP_ATPUT)
    else if key == 411480 then Some(OP_GETBOX)
    else if key == 414552 then Some(OP_SETBOX)
    else if key == 480082 then Some(OP_SETIVAR)
    else if key == 216660 then Some(OP_NOT)
    else if key == 479814 then Some(OP_RETSELF)
    else if key == 149317 then Some(OP_GE)
    else if key == 149332 then Some(OP_GT)
    else if key == 150612 then Some(OP_LT)
    else if key == 217922 then Some(OP_SUB)
    else if key == 216396 then Some(OP_MUL)
    else if key == 214102 then Some(OP_DIV)
    else if key == 216388 then Some(OP_MOD)
    else if key == 347480 then Some(OP_MKBOX)
    else if key == 475973 then Some(OP_CAPTURE)
    else if key == 609605 then Some(OP_MKCLOSURE)
    else if key == 611154 then Some(OP_SENDSUPER)
    else if key == 216658 then Some(OP_NLR)
    else if key == 282701 then Some(OP_PRIM)
    else if key == 216656 then Some(OP_NOP)
    else if key == 344651 then Some(OP_BREAK)
    else None
  }

  /** The image-side encoder; `None` is an error: an unknown mnemonic or a missing operand. */
  function EncodeTuple(t: Tuple): Option<nat> {
    if t.mnemonic == [] then None
    else
      var key, n := MnemonicKey(t.mnemonic), |t.operands|;
      match OpcodeForKey(key)
      case None => None
      case Some(op) =>
        if key == 479814 || key == 216656 || key == 344651 then Some(op)
        else if key == 478284 || key == 543813 || key == 609349 || key == 543814 || key == 217684 || key == 216658 then
          if n < 1 then None else Positive(op + t.operands[0] * 0x100)
        else if key == 282701 || key == 281168 then
          if n < 1 then None else Some(op + t.operands[0] % 0x1_0000 * 0x1_0000)
        else if key == 347211 || key == 478292 || key == 609605 || key == 543301 || key == 608837 then
          if n < 2 then None else Positive(op + t.operands[0] * 0x100 + t.operands[1] % 0x1_0000 * 0x1_0000)
        else if n == 2 then Positive(op + t.operands[0] * 0x100 + t.operands[1] * 0x1_0000)
        else if n < 3 then None
        else Positive(op + t.operands[0] * 0x100 + t.operands[1] * 0x1_0000 + t.operands[2] * 0x100_0000)
  }

  /** Operands out of range are outside what the encoder is for. */
  function Positive(w: int): Option<nat> {
    if w >= 0 then Some(w) else None
  }

  /** The tuple of an instruction: the operands in the order the disassembler shows them. */
  function TupleOf(insn: Insn): Tuple {
    match insn
    case Nop => Tuple("NOP", [])
    case Break => Tuple("BREAK", [])
    case Move(d, a) => Tuple("MOVE", [d, a])
    case LoadK(d, k) => Tuple("LOADK", [d, k])
    case LoadInt(d, imm) => Tuple("LOADINT", [d, imm])
    case LoadNil(d) => Tuple("LOADNIL", [d])
    case LoadTrue(d) => Tuple("LOADTRUE", [d])
    case LoadFalse(d) => Tuple("LOADFALSE", [d])
    case LoadSelf(d) => Tuple("LOADSELF", [d])
    case GetIvar(d, i) => Tuple("GETIVAR", [d, i])
    case SetIvar(i, a) => Tuple("SETIVAR", [i, a])
    case GetBox(d, a) => Tuple("GETBOX", [d, a])
    case SetBox(a, b) => Tuple("SETBOX", [a, b])
    case MkBox(d, a) => Tuple("MKBOX", [d, a])
    case Send(d, r, site) => Tuple("SEND", [d, r, site])
    case SendSuper(d, r, site) => Tuple("SENDSUPER", [d, r, site])
    case Ret(a) => Tuple("RET", [a])
    case RetSelf => Tuple("RETSELF", [])
    case Nlr(a) => Tuple("NLR", [a])
    case Prim(n) => Tuple("PRIM", [n])
    case MkClosure(d, block) => Tuple("MKCLOSURE", [d, block])
    case Capture(c, a) => Tuple("CAPTURE", [c, a])
    case Jump(off) => Tuple("JUMP", [off])
    case JumpTrue(a, off) => Tuple("JUMPTRUE", [a, off])
    case JumpFalse(a, off) => Tuple("JUMPFALSE", [a, off])
    case Add(d, a, b) => Tuple("ADD", [d, a, b])
    case Sub(d, a, b) => Tuple("SUB", [d, a, b])
    case Mul(d, a, b) => Tuple("MUL", [d, a, b])
    case Div(d, a, b) => Tuple("DIV", [d, a, b])
    case Mod(d, a, b) => Tuple("MOD", [d, a, b])
    case Lt(d, a, b) => Tuple("LT", [d, a, b])
    case Gt(d, a, b) => Tuple("GT", [d, a, b])
    case Le(d, a, b) => Tuple("LE", [d, a, b])
    case Ge(d, a, b) => Tuple("GE", [d, a, b])
    case EqNum(d, a, b) => Tuple("EQNUM", [d, a, b])
    case At(d, a, b) => Tuple("AT", [d, a, b])
    case AtPut(d, a, b) => Tuple("ATPUT", [d, a, b])
    case Size(d, a) => Tuple("SIZE", [d, a])
    case ClassOf(d, a) => Tuple("CLASSOF", [d, a])
    case Not(d, a) => Tuple("NOT", [d, a])
    case IdEq(d, a, b) => Tuple("IDEQ", [d, a, b])
  }

  lemma MovesAgree(insn: Insn)
    requires IsMoves(insn)
    ensures EncodeTuple(TupleOf(insn)) == Some(Encode(insn))
  {
    if insn.Nop? {
      NopAgrees(insn, TupleOf(insn));
    }
  }

  lemma NopAgrees(insn: Insn, t: Tuple)
    requires insn.Nop? && t.mnemonic == "NOP"
    ensures EncodeTuple(t) == Some(Encode(insn))
  {
    hide OpcodeForKey, MnemonicKey, Encode;
    NopKey(t, insn);
  }

  lemma NopKey(t: Tuple, insn: Insn)
    requires insn.Nop? && t.mnemonic == "NOP"
    ensures MnemonicKey(t.mnemonic) == 216656 && OpcodeForKey(216656) == Some(OP_NOP) && Encode(insn) == OP_NOP
  {
  }

  lemma ConstantsAgree(insn: Insn)
    requires IsConstants(insn)
    ensures EncodeTuple(TupleOf(insn)) == Some(Encode(insn))
  {
  }

  lemma VariablesAgree(insn: Insn)
    requires IsVariables(insn)
    ensures EncodeTuple(TupleOf(insn)) == Some(Encode(insn))
  {
  }

  lemma SendsAgree(insn: Insn)
    requires IsSends(insn)
    ensures EncodeTuple(TupleOf(insn)) == Some(Encode(insn))
  {
  }

  lemma BlocksAgree(insn: Insn)
    requires IsBlocks(insn)
    ensures EncodeTuple(TupleOf(insn)) == Some(Encode(insn))
  {
  }

  lemma JumpsAgree(insn: Insn)
    requires IsJumps(insn)
    ensures EncodeTuple(TupleOf(insn)) == Some(Encode(insn))
  {
  }

  lemma ArithmeticAgree(insn: Insn)
    requires IsArithmetic(insn)
    ensures EncodeTuple(TupleOf(insn)) == Some(Encode(insn))
  {
  }

  lemma ComparisonsAgree(insn: Insn)
    requires IsComparisons(insn)
    ensures EncodeTuple(TupleOf(insn)) == Some(Encode(insn))
  {
  }

  lemma IndexingAgree(insn: Insn)
    requires IsIndexing(insn)
    ensures EncodeTuple(TupleOf(insn)) == Some(Encode(insn))
  {
  }

  lemma TestsAgree(insn: Insn)
    requires IsTests(insn)
    ensures EncodeTuple(TupleOf(insn)) == Some(Encode(insn))
  {
  }

  /** Both encoders produce the same word. */
  lemma EncodersAgree(insn: Insn)
    ensures EncodeTuple(TupleOf(insn)) == Some(Encode(insn))
  {
    hide Encode, EncodeTuple, TupleOf;
    if IsMoves(insn) {
      MovesAgree(insn);
    } else if IsConstants(insn) {
      ConstantsAgree(insn);
    } else if IsVariables(insn) {
      VariablesAgree(insn);
    } else if IsSends(insn) {
      SendsAgree(insn);
    } else if IsBlocks(insn) {
      BlocksAgree(insn);
    } else if IsJumps(insn) {
      JumpsAgree(insn);
    } else if IsArithmetic(insn) {
      ArithmeticAgree(insn);
    } else if IsComparisons(insn) {
      ComparisonsAgree(insn);
    } else if IsIndexing(insn) {
      IndexingAgree(insn);
    } else {
      TestsAgree(insn);
    }
  }

  // ---------- programs as bytes ----------

  function TuplesOf(insns: seq<Insn>): seq<Tuple> {
    if insns == [] then [] else [TupleOf(insns[0])] + TuplesOf(insns[1..])
  }

  /** The bytes of a program, each word lowest byte first. */
  function ProgramBytes(tuples: seq<Tuple>): Option<seq<Byte>> {
    if tuples == [] then Some([])
    else
      match EncodeTuple(tuples[0])
      case None => None
      case Some(w) =>
        match ProgramBytes(tuples[1..])
        case None => None
        case Some(rest) => Some(LE(w, 4) + rest)
  }

  method BytesForAll(tuples: seq<Tuple>) returns (r: Option<seq<Byte>>)
    ensures r == ProgramBytes(tuples)
  {
    hide EncodeTuple, LE;
    var out: seq<Byte> := [];
    assert tuples[0..] == tuples;
    assert ProgramBytes(tuples).Some? ==> out + ProgramBytes(tuples).value == ProgramBytes(tuples).value;
    for i := 0 to |tuples|
      invariant ProgramBytes(tuples) == match ProgramBytes(tuples[i..]) case None => None case Some(rest) => Some(out + rest)
    {
      assert tuples[i..][1..] == tuples[i + 1..];
      var word := EncodeTuple(tuples[i]);
      if word.None? {
        return None;
      }
      var w := word.value;
      FourBytes(w);
      ghost var before := out;
      out := out + [w % 256];
      out := out + [w / 0x100 % 256];
      out := out + [w / 0x1_0000 % 256];
      out := out + [w / 0x100_0000 % 256];
      assert out == before + LE(w, 4);
      assert forall rest: seq<Byte> :: out + rest == before + (LE(w, 4) + rest);
    }
    assert out + [] == out;
    r := Some(out);
  }

  lemma FourBytes(w: nat)
    ensures LE(w, 4) == [w % 256, w / 0x100 % 256, w / 0x1_0000 % 256, w / 0x100_0000 % 256]
  {
    assert w / 0x100 / 0x100 == w / 0x1_0000;
    assert w / 0x1_0000 / 0x100 == w / 0x100_0000;
    assert LE(w, 4) == [w % 256] + LE(w / 0x100, 3);
    assert LE(w / 0x100, 3) == [w / 0x100 % 256] + LE(w / 0x1_0000, 2);
    assert LE(w / 0x1_0000, 2) == [w / 0x1_0000 % 256] + LE(w / 0x100_0000, 1);
    assert LE(w / 0x100_0000, 1) == [w / 0x100_0000 % 256];
  }

  /** The words of a byte stream, four bytes each. */
  function WordsOf(bytes: seq<Byte>): seq<nat> {
    if |bytes| < 4 then [] else [FromLE(bytes[..4])] + WordsOf(bytes[4..])
  }

  /** What the image-side compiler emits for a program is what the virtual machine assembles, and decodes to that program. */
  lemma {:induction false} StreamDecodes(insns: seq<Insn>)
    ensures var bytes := ProgramBytes(TuplesOf(insns));
      && bytes.Some? && |bytes.value| == 4 * |insns|
      && WordsOf(bytes.value) == Assemble(insns) && Disassemble(WordsOf(bytes.value)) == Some(insns)
  {
    hide Encode, Decode, EncodeTuple, TupleOf, LE, FromLE, Disassemble;
    ProgramRoundTrip(insns);
    if insns != [] {
      var w, rest := Encode(insns[0]), insns[1..];
      StreamDecodes(rest);
      EncodersAgree(insns[0]);
      InsnRoundTrip(insns[0]);
      FromFour(w);
      assert TuplesOf(insns)[1..] == TuplesOf(rest);
      var bytes, more := ProgramBytes(TuplesOf(insns)).value, ProgramBytes(TuplesOf(rest)).value;
      assert bytes == LE(w, 4) + more;
      assert bytes[..4] == LE(w, 4) && bytes[4..] == more;
    }
  }

  lemma FromFour(w: nat)
    requires w < 0x1_0000_0000
    ensures FromLE(LE(w, 4)) == w
  {
    assert Pow256(1) == 0x100;
    assert Pow256(2) == 0x1_0000;
    assert Pow256(3) == 0x100_0000;
    LERoundTrip(w, 4);
  }
}
