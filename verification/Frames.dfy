/** The frame stack of one process: overlapping frames in a growable array of words, linked by caller offsets. */
module Frames {
  import opened ObjectMemory
  import opened Options
  import opened StackSizes

  // ---------- layout of a frame ----------

  const FRAME_CALLER: nat := 0
  const FRAME_RETINFO: nat := 1
  const FRAME_METHOD: nat := 2
  const FRAME_FLAGS: nat := 3
  const FRAME_RECEIVER: nat := 4

  const FLAG_HANDLER: nat := 1
  const FLAG_ENSURE: nat := 2
  const FLAG_BLOCKCTX: nat := 4
  const FLAG_UNWINDCONT: nat := 8
  const SERIAL_UNIT: nat := 0x1_0000_0000
  const DEST_UNIT: nat := 256
  const LAST_SERIAL: nat := 0x3FFF_FFFF

  const STACK_FRAMES_BASE: nat := 1

  const HANDLER_SLOT_STATE: nat := 2
  const ENSURE_SLOT_BLOCK: nat := 0
  const ENSURE_SLOT_PENDING_TARGET: nat := 1
  const ENSURE_SLOT_PENDING_SERIAL: nat := 2
  const ENSURE_SLOT_PENDING_VALUE: nat := 3

  /** What the header and the first instruction of a method say. */
  datatype MethodInfo = MethodInfo(
    frameSlots: nat,
    argc: nat,
    isHandler: bool,
    isEnsure: bool,
    handlerBase: nat,
    startsWithPrim: bool)

  datatype Closure = Closure(block: Addr, homeProcess: Value, homeOffset: Value, homeSerial: Value)

  datatype Error =
    | StackOverflow
    | TargetNotOnChain
    | UnwindPastBase
    | TargetDied
    | CorruptPending
    | EnsureTakesArguments
    | DeadHomeInBaseFrame
    | BadLink

  /** The running process: its stack, the registers, its serial counter, and the allocated objects, closures and methods
      among them. `limit` is the largest stack in slots. */
  datatype Machine = Machine(
    stack: seq<Value>,
    frame: nat,
    pc: nat,
    serial: nat,
    objects: set<Addr>,
    closures: map<Addr, Closure>,
    methods: map<Addr, MethodInfo>,
    process: Value,
    nil: Value,
    limit: nat)
  {
    function At(i: int): Value {
      if 0 <= i < |stack| then stack[i] else nil
    }

    function IntAt(i: int): int {
      if At(i).Int? then At(i).n else 0
    }

    /** A value is a SmallInteger or refers to an object. */
    predicate Valid(v: Value) {
      v.Ptr? ==> v.addr in objects
    }

    /** The slot `k` of the current frame, slot 0 being the receiver. */
    function Get(k: nat): Value {
      At(frame + FRAME_RECEIVER + k)
    }

    function Put(k: nat, v: Value): Machine {
      this.(stack := Set(stack, frame + FRAME_RECEIVER + k, v))
    }

    /** What the method of the frame at `b` declares. */
    function Info(b: nat): MethodInfo {
      var word := At(b + FRAME_METHOD);
      if word.Ptr? && word.addr in methods then methods[word.addr] else MethodInfo(0, 0, false, false, 0, false)
    }

    function Flag(b: nat, flag: nat): bool
      requires flag > 0
    {
      HasFlag(IntAt(b + FRAME_FLAGS), flag)
    }

    /** The serial of the activation whose flags word is at `b + 3`. */
    function Serial(b: nat): int {
      IntAt(b + FRAME_FLAGS) / SERIAL_UNIT
    }

    function Caller(b: nat): int {
      IntAt(b + FRAME_CALLER)
    }

    function RetDest(b: nat): nat {
      IntAt(b + FRAME_RETINFO) % DEST_UNIT
    }

    function RetPc(b: nat): nat {
      var pc := IntAt(b + FRAME_RETINFO) / DEST_UNIT;
      if pc < 0 then 0 else pc
    }
  }

  function Set(s: seq<Value>, i: nat, v: Value): seq<Value> {
    if i < |s| then s[i := v] else s
  }

  predicate HasFlag(word: int, flag: nat)
    requires flag > 0
  {
    (word / flag) % 2 == 1
  }

  function Bit(b: bool): nat {
    if b then 1 else 0
  }

  function FlagsWord(handler: bool, ensure: bool, block: bool, cont: bool, serial: nat): int {
    Bit(handler) * FLAG_HANDLER + Bit(ensure) * FLAG_ENSURE + Bit(block) * FLAG_BLOCKCTX + Bit(cont) * FLAG_UNWINDCONT
    + serial * SERIAL_UNIT
  }

  lemma FlagsWordReads(handler: bool, ensure: bool, block: bool, cont: bool, serial: nat)
    ensures var w := FlagsWord(handler, ensure, block, cont, serial);
      && w / SERIAL_UNIT == serial
      && HasFlag(w, FLAG_HANDLER) == handler && HasFlag(w, FLAG_ENSURE) == ensure
      && HasFlag(w, FLAG_BLOCKCTX) == block && HasFlag(w, FLAG_UNWINDCONT) == cont
  {
    FlagsAbove(FlagsWord(handler, ensure, block, cont, 0), serial * 0x1000_0000);
  }

  /** What lies above the four flags does not show in them. */
  lemma FlagsAbove(low: nat, k: nat)
    requires low < 16
    ensures HasFlag(low + 16 * k, FLAG_HANDLER) == HasFlag(low, FLAG_HANDLER)
    ensures HasFlag(low + 16 * k, FLAG_ENSURE) == HasFlag(low, FLAG_ENSURE)
    ensures HasFlag(low + 16 * k, FLAG_BLOCKCTX) == HasFlag(low, FLAG_BLOCKCTX)
    ensures HasFlag(low + 16 * k, FLAG_UNWINDCONT) == HasFlag(low, FLAG_UNWINDCONT)
  {
    EvenAbove(low, 8 * k);
    assert (low + 16 * k) / 2 == low / 2 + 8 * k;
    EvenAbove(low / 2, 4 * k);
    assert (low + 16 * k) / 4 == low / 4 + 4 * k;
    EvenAbove(low / 4, 2 * k);
    assert (low + 16 * k) / 8 == low / 8 + 2 * k;
    EvenAbove(low / 8, k);
  }

  lemma EvenAbove(x: nat, k: nat)
    ensures (x + 2 * k) % 2 == x % 2
  {
  }

  function Low8(n: nat): nat {
    n % 256
  }

  // ---------- serials ----------

  /** The serial counter of a process, wrapping within 30 bits and skipping 0. */
  function NextSerial(cur: nat): nat {
    if cur >= LAST_SERIAL then 1 else cur + 1
  }

  /** The serial of the `n`th activation of a process. */
  function SerialNo(n: nat): nat
    requires n >= 1
  {
    1 + (n - 1) % LAST_SERIAL
  }

  lemma NextSerialNo(n: nat)
    requires n >= 1
    ensures NextSerial(SerialNo(n)) == SerialNo(n + 1)
  {
  }

  /** Within a window of fewer than 2^30 - 1 activations a serial names one activation. */
  lemma SerialDistinct(i: nat, j: nat)
    requires 1 <= i <= j < i + LAST_SERIAL
    ensures SerialNo(i) == SerialNo(j) <==> i == j
  {
    var p := LAST_SERIAL;
    assert (j - 1) / p - (i - 1) / p <= 1;
    if (i - 1) % p == (j - 1) % p {
      assert j - i == ((j - 1) / p - (i - 1) / p) * p;
    }
  }

  // ---------- growth ----------

  /** The machine with a stack of at least `needed` slots; the words stay, new ones are nil. */
  function Room(m: Machine, needed: nat): Option<Machine> {
    if needed <= |m.stack| then Some(m)
    else if |m.stack| == 0 || Doubled(2 * |m.stack|, needed) > m.limit then None
    else Some(m.(stack := m.stack + seq(Doubled(2 * |m.stack|, needed) - |m.stack|, i => m.nil)))
  }

  lemma RoomKeeps(m: Machine, needed: nat)
    requires Room(m, needed).Some?
    ensures var m' := Room(m, needed).value;
      m' == m.(stack := m'.stack) && needed <= |m'.stack| && |m.stack| <= |m'.stack| && forall i :: m'.At(i) == m.At(i)
  {
  }

  // ---------- pushing and popping ----------

  datatype Outcome =
    | Running(m: Machine)
    | Halted(m: Machine, value: Value)
    | CannotReturn(m: Machine, dest: nat, closure: Value, value: Value)
    | Failed(error: Error)

  /** The control words and nil temporaries of a new frame at `b`; receiver and arguments are in place. */
  function NewFrame(m: Machine, b: nat, callee: Addr, dest: nat, argc: nat, flags: int, fs: nat): seq<Value> {
    seq(|m.stack|, i requires 0 <= i < |m.stack| =>
      if i == b + FRAME_CALLER then Int(m.frame)
      else if i == b + FRAME_RETINFO then Int(dest + m.pc * DEST_UNIT)
      else if i == b + FRAME_METHOD then Ptr(callee)
      else if i == b + FRAME_FLAGS then Int(flags)
      else if b + FRAME_RECEIVER + 1 + argc <= i < b + FRAME_RECEIVER + fs then m.nil
      else m.stack[i])
  }

  /** Push a frame for `callee` whose receiver is in slot `r` of the current frame. A failed primitive leaves its code
      in the slot after the arguments and enters past the primitive instruction. */
  function PushFrame(m: Machine, callee: Addr, r: nat, dest: nat, argc: nat, failure: Option<int>, block: bool, cont: bool): Outcome
    requires callee in m.methods
  {
    var info := m.methods[callee];
    var b := m.frame + r;
    match Room(m, b + FRAME_RECEIVER + info.frameSlots)
    case None => Failed(StackOverflow)
    case Some(m1) =>
      var serial := NextSerial(m1.serial);
      var flags := FlagsWord(info.isHandler, info.isEnsure, block, cont, serial);
      var m2 := m1.(serial := serial, frame := b, pc := if failure.Some? && info.startsWithPrim then 1 else 0,
                    stack := NewFrame(m1, b, callee, dest, argc, flags, info.frameSlots));
      Running(if failure.Some? then m2.Put(Low8(1 + argc), Int(failure.value)) else m2)
  }

  function NilRange(s: seq<Value>, lo: nat, hi: nat, nil: Value): seq<Value> {
    seq(|s|, i requires 0 <= i < |s| => if lo <= i < hi then nil else s[i])
  }

  /** Clear the region of the current frame. */
  function NilFrame(m: Machine): Machine {
    m.(stack := NilRange(m.stack, m.frame, m.frame + FRAME_RECEIVER + m.Info(m.frame).frameSlots, m.nil))
  }

  /** Pop the current frame down to offset `c`. */
  function Pop(m: Machine, c: nat): Machine {
    NilFrame(m).(frame := c)
  }

  /** Return `value` to the caller at `c`. */
  function Resume(m: Machine, c: nat, value: Value): Machine {
    Pop(m, c).(pc := m.RetPc(m.frame)).Put(m.RetDest(m.frame), value)
  }

  // ---------- the unwinder ----------

  /** The block of an ensure frame that has not run yet. */
  function ArmedBlock(m: Machine, b: nat): Option<Addr> {
    var v := m.At(b + FRAME_RECEIVER + Low8(m.Info(b).handlerBase + ENSURE_SLOT_BLOCK));
    if m.Flag(b, FLAG_ENSURE) && v.Ptr? && v.addr in m.closures then Some(v.addr) else None
  }

  /** Where popping frames towards `target` stops. */
  datatype Stop = AtTarget(m: Machine) | AtEnsure(m: Machine, block: Addr) | Lost(error: Error)

  function Scan(m: Machine, target: nat): Stop
    decreases m.frame
  {
    if m.frame == target then AtTarget(m)
    else if m.frame < target then Lost(TargetNotOnChain)
    else if ArmedBlock(m, m.frame).Some? then AtEnsure(m, ArmedBlock(m, m.frame).value)
    else
      var c := m.Caller(m.frame);
      if c == 0 then Lost(UnwindPastBase)
      else if !(0 < c < m.frame) then Lost(BadLink)
      else Scan(Pop(m, c), target)
  }

  lemma {:induction false} ScanFrame(m: Machine, target: nat)
    ensures var s := Scan(m, target);
      && (s.AtTarget? ==> s.m.frame == target && target <= m.frame)
      && (s.AtEnsure? ==> target < s.m.frame <= m.frame)
    decreases m.frame
  {
    var c := m.Caller(m.frame);
    if m.frame > target && ArmedBlock(m, m.frame).None? && 0 < c < m.frame {
      ScanFrame(Pop(m, c), target);
    }
  }

  /** The ensure frame on top keeps the pending unwind in its reserved slots; its block is marked as consumed. */
  function Stash(m: Machine, target: nat, value: Value): Machine {
    var base := m.Info(m.frame).handlerBase;
    m.Put(Low8(base + ENSURE_SLOT_BLOCK), m.nil)
     .Put(Low8(base + ENSURE_SLOT_PENDING_TARGET), Int(target))
     .Put(Low8(base + ENSURE_SLOT_PENDING_SERIAL), Int(m.Serial(target)))
     .Put(Low8(base + ENSURE_SLOT_PENDING_VALUE), value)
  }

  /** Stash the pending unwind and activate the block above the ensure frame. */
  function RunEnsure(m: Machine, target: nat, value: Value, closure: Addr): Outcome
    requires closure in m.closures
  {
    var m1 := Stash(m, target, value);
    var block := m.closures[closure].block;
    if block !in m.methods || m.methods[block].argc != 0 then Failed(EnsureTakesArguments)
    else
      var r := m.Info(m.frame).frameSlots + FRAME_RECEIVER;
      match Room(m1, m.frame + FRAME_RECEIVER + r + 1)
      case None => Failed(StackOverflow)
      case Some(m2) => PushFrame(m2.Put(Low8(r), Ptr(closure)), block, Low8(r), 0, 0, None, true, true)
  }

  lemma {:induction false} ScanBlock(m: Machine, target: nat)
    ensures Scan(m, target).AtEnsure? ==> Scan(m, target).block in Scan(m, target).m.closures
    decreases m.frame
  {
    var c := m.Caller(m.frame);
    if m.frame > target && ArmedBlock(m, m.frame).None? && 0 < c < m.frame {
      ScanBlock(Pop(m, c), target);
    }
  }

  /** Pop frames down to `target`, then return `value` from it; an armed ensure frame intercepts. */
  function Unwind(m: Machine, target: nat, value: Value): Outcome
    decreases m.frame, 1
  {
    ScanFrame(m, target);
    ScanBlock(m, target);
    match Scan(m, target)
    case AtTarget(m') => Return(m', value)
    case AtEnsure(m', closure) => RunEnsure(m', target, value, closure)
    case Lost(e) => Failed(e)
  }

  /** Return `value` from the current frame. */
  function Return(m: Machine, value: Value): Outcome
    decreases m.frame, 0
  {
    var c := m.Caller(m.frame);
    if m.Flag(m.frame, FLAG_UNWINDCONT) then
      match Pending(m)
      case None => Failed(if 0 <= c < m.frame then CorruptPending else BadLink)
      case Some(p) =>
        if 0 <= p.target <= p.m.frame && p.m.At(p.target + FRAME_FLAGS).Int? && Int(p.m.Serial(p.target)) == p.serial
        then Unwind(p.m, p.target, p.value)
        else Failed(TargetDied)
    else if c == 0 then Halted(m, value)
    else if !(0 < c < m.frame) then Failed(BadLink)
    else Running(Resume(m, c, value))
  }

  datatype PendingUnwind = PendingUnwind(m: Machine, target: int, serial: Value, value: Value)

  /** Pop a finished ensure block and read the pending unwind from the ensure frame below. */
  function Pending(m: Machine): (p: Option<PendingUnwind>)
    ensures p.Some? ==> p.value.m.frame < m.frame
  {
    var e := m.Caller(m.frame);
    if !(0 <= e < m.frame) then None
    else
      var m1 := Pop(m, e);
      var base := m1.Info(e).handlerBase;
      var target := m1.Get(Low8(base + ENSURE_SLOT_PENDING_TARGET));
      if !target.Int? then None
      else
        Some(PendingUnwind(m1, target.n, m1.Get(Low8(base + ENSURE_SLOT_PENDING_SERIAL)),
                           m1.Get(Low8(base + ENSURE_SLOT_PENDING_VALUE))))
  }

  // ---------- closures and non-local return ----------

  /** Make a closure and put it into slot `d`. A block that can return from its home records the home activation: this
      one, or that of the enclosing closure. */
  function MakeClosure(m: Machine, a: Addr, block: Addr, hasNlr: bool, d: nat): Machine
    requires (m.Get(0).Ptr? && m.Get(0).addr in m.closures) || !m.Flag(m.frame, FLAG_BLOCKCTX) || !hasNlr
  {
    var c :=
      if !hasNlr then Closure(block, m.nil, Int(0), Int(0))
      else if m.Flag(m.frame, FLAG_BLOCKCTX) then m.closures[m.Get(0).addr].(block := block)
      else Closure(block, m.process, Int(m.frame), Int(m.Serial(m.frame)));
    m.(objects := m.objects + {a}, closures := m.closures[a := c]).Put(d, Ptr(a))
  }

  /** The home activation of a closure is on this stack, as far as its serial tells. */
  predicate HomeAlive(m: Machine, c: Closure) {
    && c.homeProcess == m.process && c.homeProcess != m.nil
    && c.homeOffset.Int? && 0 <= c.homeOffset.n <= m.frame
    && m.At(c.homeOffset.n + FRAME_FLAGS).Int?
    && Int(m.Serial(c.homeOffset.n)) == c.homeSerial
  }

  /** Return the value in slot `a` from the home of the closure in slot 0; if it is dead, the block's caller sends
      cannotReturn: in its place. */
  function NonLocalReturn(m: Machine, a: nat): Outcome
    requires m.Get(0).Ptr? && m.Get(0).addr in m.closures
  {
    var c := m.closures[m.Get(0).addr];
    if HomeAlive(m, c) then Unwind(m, c.homeOffset.n, m.Get(a))
    else
      var caller := m.Caller(m.frame);
      if caller == 0 then Failed(DeadHomeInBaseFrame)
      else if !(0 < caller < m.frame) then Failed(BadLink)
      else
        CannotReturn(Pop(m, caller).(pc := m.RetPc(m.frame)), m.RetDest(m.frame), m.Get(0), m.Get(a))
  }
}
