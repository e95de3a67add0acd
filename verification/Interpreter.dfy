/** The frame operations of the interpreter, step by step on a mutable stack. */
module Interpreter {
  import opened ObjectMemory
  import opened Options
  import opened StackSizes
  import opened Frames
  import opened Activations
  import opened Unwinder
  import opened UnwindRuns
  import opened FrameRuns

  /** How a frame operation leaves the run loop. */
  datatype Signal =
    | Continue
    | Halt(value: Value)
    | SendCannotReturn(dest: nat, closure: Value, value: Value)
    | Fatal(error: Error)

  /** The signal and the state agree with an outcome. */
  predicate Shows(o: Outcome, s: Signal, m: Machine) {
    match o
    case Running(m') => s == Continue && m == m'
    case Halted(m', value) => s == Halt(value) && m == m'
    case CannotReturn(m', dest, closure, value) => s == SendCannotReturn(dest, closure, value) && m == m'
    case Failed(e) => s == Fatal(e)
  }

  class Interpreter {
    var stack: seq<Value>
    var frame: nat
    var pc: nat
    var serial: nat
    var objects: set<Addr>
    var closures: map<Addr, Closure>
    const methods: map<Addr, MethodInfo>
    const process: Value
    const nil: Value
    const limit: nat

    function State(): Machine
      reads this
    {
      Machine(stack, frame, pc, serial, objects, closures, methods, process, nil, limit)
    }

    /** A process poised at the start of `callee`: the base frame holds the receiver and the arguments. */
    constructor Spawn(callee: Addr, receiver: Value, args: seq<Value>, size: nat, known: map<Addr, MethodInfo>,
                      owner: Value, empty: Value, heap: set<Addr>, maximum: nat)
      requires callee in known
      requires STACK_FRAMES_BASE + FRAME_RECEIVER + known[callee].frameSlots <= size
      requires STACK_FRAMES_BASE + FRAME_RECEIVER + 1 + |args| <= size
      requires owner.Ptr? && owner.addr in heap && owner != empty && (empty.Ptr? ==> empty.addr in heap)
      requires known.Keys <= heap && forall v :: v in [receiver] + args ==> v.Ptr? ==> v.addr in heap
      requires forall a :: a in known ==>
        && !(known[a].isHandler && known[a].isEnsure)
        && (known[a].isHandler || known[a].isEnsure ==> known[a].handlerBase + FRAME_RECEIVER <= known[a].frameSlots)
        && (known[a].isEnsure ==> known[a].frameSlots <= 251)
      ensures Wf(State(), History([STACK_FRAMES_BASE], [1], 1, map[]))
      ensures State().Get(0) == receiver && forall i :: 0 <= i < |args| ==> State().Get(1 + i) == args[i]
    {
      var words := [owner, Int(0), Int(0), Ptr(callee), Int(SERIAL_UNIT), receiver] + args;
      stack := words + seq(size - |words|, i => empty);
      frame, pc, serial := STACK_FRAMES_BASE, 0, 1;
      objects, closures := heap, map[];
      methods, process, nil, limit := known, owner, empty, maximum;
      new;
      SpawnedFrame(State());
    }

    /** Clear the words of the current frame. */
    method NilFrame()
      modifies this`stack
      ensures State() == Frames.NilFrame(old(State()))
    {
      var n := FRAME_RECEIVER + State().Info(frame).frameSlots;
      for i := 0 to n
        invariant |stack| == |old(stack)|
        invariant forall j :: 0 <= j < |stack| ==> stack[j] == if frame <= j < frame + i then nil else old(stack)[j]
      {
        stack := Set(stack, frame + i, nil);
      }
    }

    /** Double the stack until `needed` slots fit, within the limit. */
    method GrowStack(needed: nat) returns (ok: bool)
      requires needed > |stack| > 0
      modifies this`stack
      ensures Room(old(State()), needed) == if ok then Some(State()) else None
      ensures !ok ==> State() == old(State())
    {
      var size := NewSize(|stack|, needed);
      ok := size <= limit;
      if ok {
        stack := stack + seq(size - |stack|, i => nil);
      }
    }

    /** Room for `needed` slots, growing the stack if it takes that. */
    method EnsureRoom(needed: nat) returns (ok: bool)
      modifies this`stack
      ensures Room(old(State()), needed) == if ok then Some(State()) else None
      ensures !ok ==> State() == old(State())
    {
      ok := true;
      if needed > |stack| {
        if |stack| == 0 {
          return false;
        }
        ok := GrowStack(needed);
      }
    }

    method BumpSerial() returns (next: nat)
      modifies this`serial
      ensures serial == next == NextSerial(old(serial))
    {
      next := if serial >= LAST_SERIAL then 1 else serial + 1;
      serial := next;
    }

    /** Write the control words of a new frame at `b` and clear its temporaries. */
    method LayFrame(b: nat, callee: Addr, dest: nat, argc: nat, flags: int, fs: nat)
      modifies this`stack
      ensures stack == NewFrame(old(State()), b, callee, dest, argc, flags, fs)
    {
      stack := Set(stack, b + FRAME_CALLER, Int(frame));
      stack := Set(stack, b + FRAME_RETINFO, Int(dest + pc * DEST_UNIT));
      stack := Set(stack, b + FRAME_METHOD, Ptr(callee));
      stack := Set(stack, b + FRAME_FLAGS, Int(flags));
      ghost var laid := stack;
      var k := 1 + argc;
      while k < fs
        invariant 1 + argc <= k && |stack| == |laid|
        invariant forall j :: 0 <= j < |stack| ==>
          stack[j] == if b + FRAME_RECEIVER + 1 + argc <= j < b + FRAME_RECEIVER + k && j < b + FRAME_RECEIVER + fs then nil else laid[j]
      {
        stack := Set(stack, b + FRAME_RECEIVER + k, nil);
        k := k + 1;
      }
    }

    /** Push a frame whose receiver is in slot `r` of the current one. */
    method PushFrame(callee: Addr, r: nat, dest: nat, argc: nat, failure: Option<int>, block: bool, cont: bool) returns (s: Signal)
      requires callee in methods
      modifies this`stack, this`frame, this`pc, this`serial
      ensures Shows(Frames.PushFrame(old(State()), callee, r, dest, argc, failure, block, cont), s, State())
    {
      hide NewFrame, FlagsWord, NextSerial, Room;
      var info := methods[callee];
      var b := frame + r;
      var ok := EnsureRoom(b + FRAME_RECEIVER + info.frameSlots);
      if !ok {
        return Fatal(StackOverflow);
      }
      ghost var m1 := State();
      var next := BumpSerial();
      var flags := FlagsWord(info.isHandler, info.isEnsure, block, cont, next);
      LayFrame(b, callee, dest, argc, flags, info.frameSlots);
      assert stack == NewFrame(m1, b, callee, dest, argc, flags, info.frameSlots) by {
        SameLayout(m1, m1.(serial := next), b, callee, dest, argc, flags, info.frameSlots);
      }
      frame := b;
      if failure.Some? {
        pc := if info.startsWithPrim then 1 else 0;
        stack := Set(stack, frame + FRAME_RECEIVER + Low8(1 + argc), Int(failure.value));
      } else {
        pc := 0;
      }
      s := Continue;
    }

    /** Return from the current frame; the end of an ensure block resumes the unwind it interrupted. */
    method DoReturn(value: Value) returns (s: Signal)
      modifies this`stack, this`frame, this`pc, this`serial
      ensures Shows(Return(old(State()), value), s, State())
      decreases frame, 1
    {
      if State().Flag(frame, FLAG_UNWINDCONT) {
        s := ContinueUnwind();
        return;
      }
      var caller := State().Caller(frame);
      if caller == 0 {
        return Halt(value);
      }
      if !(0 < caller < frame) {
        return Fatal(BadLink);
      }
      var dest, ret := State().RetDest(frame), State().RetPc(frame);
      NilFrame();
      pc := ret;
      frame := caller;
      stack := Set(stack, frame + FRAME_RECEIVER + dest, value);
      s := Continue;
    }

    /** Pop frames down to `target` and return `value` from it; an armed ensure frame intercepts. */
    method UnwindAndReturnFrom(target: nat, value: Value) returns (s: Signal)
      modifies this`stack, this`frame, this`pc, this`serial
      ensures Shows(Unwind(old(State()), target, value), s, State())
      decreases frame, 2
    {
      hide Return, RunEnsure, Frames.NilFrame, ArmedBlock, Shows;
      ghost var m := State();
      while frame > target && ArmedBlock(State(), frame).None?
        invariant Scan(State(), target) == Scan(m, target) && frame <= m.frame
        decreases frame
      {
        var caller := State().Caller(frame);
        if caller == 0 {
          UnwindLost(m, target, value, UnwindPastBase);
          return Fatal(UnwindPastBase);
        }
        if !(0 < caller < frame) {
          UnwindLost(m, target, value, BadLink);
          return Fatal(BadLink);
        }
        NilFrame();
        frame := caller;
      }
      if frame == target {
        UnwindArrives(m, target, value, State());
        s := DoReturn(value);
      } else if frame < target {
        UnwindLost(m, target, value, TargetNotOnChain);
        s := Fatal(TargetNotOnChain);
      } else {
        var closure := ArmedBlock(State(), frame).value;
        ArmedClosure(State(), frame);
        UnwindStops(m, target, value, State(), closure);
        s := RunEnsureBlock(target, value, closure);
      }
    }

    /** Stash the pending unwind in the ensure frame and activate its block above it. */
    method RunEnsureBlock(target: nat, value: Value, closure: Addr) returns (s: Signal)
      requires closure in closures
      modifies this`stack, this`frame, this`pc, this`serial
      ensures Shows(RunEnsure(old(State()), target, value, closure), s, State())
    {
      hide Frames.PushFrame, Room, Stash, Machine.Put;
      var fs := State().Info(frame).frameSlots;
      StashPending(target, value);
      var block := closures[closure].block;
      if block !in methods || methods[block].argc != 0 {
        return Fatal(EnsureTakesArguments);
      }
      var r := fs + FRAME_RECEIVER;
      var ok := EnsureRoom(frame + FRAME_RECEIVER + r + 1);
      if !ok {
        return Fatal(StackOverflow);
      }
      Store(Low8(r), Ptr(closure));
      s := PushFrame(block, Low8(r), 0, 0, None, true, true);
    }

    /** Disarm the ensure frame and record the pending unwind in it. */
    method StashPending(target: nat, value: Value)
      modifies this`stack
      ensures State() == Stash(old(State()), target, value)
    {
      hide Machine.Put;
      var base := State().Info(frame).handlerBase;
      var targetSerial := State().Serial(target);
      Store(Low8(base + ENSURE_SLOT_BLOCK), nil);
      Store(Low8(base + ENSURE_SLOT_PENDING_TARGET), Int(target));
      Store(Low8(base + ENSURE_SLOT_PENDING_SERIAL), Int(targetSerial));
      Store(Low8(base + ENSURE_SLOT_PENDING_VALUE), value);
    }

    /** Store into a slot of the current frame. */
    method Store(k: nat, v: Value)
      modifies this`stack
      ensures State() == old(State()).Put(k, v)
    {
      stack := Set(stack, frame + FRAME_RECEIVER + k, v);
    }

    /** The block of an ensure frame has returned: pop it and go on with the pending unwind, if its target lives. */
    method ContinueUnwind() returns (s: Signal)
      requires State().Flag(frame, FLAG_UNWINDCONT)
      modifies this`stack, this`frame, this`pc, this`serial
      ensures Shows(Return(old(State()), Int(0)), s, State())
      ensures forall v :: Return(old(State()), v) == Return(old(State()), Int(0))
      decreases frame, 0
    {
      hide Unwind, Shows;
      ghost var m := State();
      ReturnContinues(m);
      var e := State().Caller(frame);
      if !(0 <= e < frame) {
        ShowsFatal(Return(m, Int(0)), BadLink, m);
        return Fatal(BadLink);
      }
      NilFrame();
      frame := e;
      assert State() == Pop(m, e);
      hide Pop;
      var base := State().Info(frame).handlerBase;
      var target := State().Get(Low8(base + ENSURE_SLOT_PENDING_TARGET));
      var targetSerial := State().Get(Low8(base + ENSURE_SLOT_PENDING_SERIAL));
      var value := State().Get(Low8(base + ENSURE_SLOT_PENDING_VALUE));
      if !target.Int? {
        ShowsFatal(Return(m, Int(0)), CorruptPending, State());
        return Fatal(CorruptPending);
      }
      var t := target.n;
      if !(0 <= t <= frame && State().At(t + FRAME_FLAGS).Int? && Int(State().Serial(t)) == targetSerial) {
        ShowsFatal(Return(m, Int(0)), TargetDied, State());
        return Fatal(TargetDied);
      }
      s := UnwindAndReturnFrom(t, value);
    }

    /** Return the value in slot `a` from the home of the closure in slot 0. */
    method DoNlr(a: nat) returns (s: Signal)
      requires EnclosingKnown(State())
      modifies this`stack, this`frame, this`pc, this`serial
      ensures Shows(NonLocalReturn(old(State()), a), s, State())
    {
      hide Unwind;
      var value, closure := State().Get(a), State().Get(0);
      var c := closures[closure.addr];
      if !HomeAlive(State(), c) {
        var caller := State().Caller(frame);
        if caller == 0 {
          return Fatal(DeadHomeInBaseFrame);
        }
        if !(0 < caller < frame) {
          return Fatal(BadLink);
        }
        var dest, ret := State().RetDest(frame), State().RetPc(frame);
        NilFrame();
        frame := caller;
        pc := ret;
        return SendCannotReturn(dest, closure, value);
      }
      s := UnwindAndReturnFrom(c.homeOffset.n, value);
    }

    /** Make a closure over `block` at the fresh address `a` and put it into slot `d`. */
    method DoMkClosure(a: Addr, block: Addr, hasNlr: bool, d: nat)
      requires EnclosingKnown(State()) || !State().Flag(frame, FLAG_BLOCKCTX) || !hasNlr
      modifies this`stack, this`objects, this`closures
      ensures State() == MakeClosure(old(State()), a, block, hasNlr, d)
    {
      var c := Closure(block, nil, Int(0), Int(0));
      if hasNlr {
        if State().Flag(frame, FLAG_BLOCKCTX) {
          var encl := closures[State().Get(0).addr];
          c := Closure(block, encl.homeProcess, encl.homeOffset, encl.homeSerial);
        } else {
          c := Closure(block, process, Int(frame), Int(State().Serial(frame)));
        }
      }
      objects, closures := objects + {a}, closures[a := c];
      Store(d, Ptr(a));
    }

    /** The primitive that unwinds to an activation, and answers false when it is dead. */
    method UnwindTo(offset: nat, target: int, value: Value) returns (ok: bool, s: Signal)
      modifies this`stack, this`frame, this`pc, this`serial
      ensures ok <==> UnwindLive(old(State()), offset, target)
      ensures Shows(Do(old(State()), Op.UnwindTo(offset, target, value)), s, State())
    {
      ok := UnwindLive(State(), offset, target);
      s := Continue;
      if ok {
        s := UnwindAndReturnFrom(offset, value);
      }
    }
  }

  lemma SpawnedFrame(m: Machine)
    requires |m.stack| >= 6 && m.stack[1] == Int(0) && m.stack[2] == Int(0) && m.stack[4] == Int(SERIAL_UNIT)
    requires m.stack[3].Ptr? && m.stack[3].addr in m.methods
    requires m.frame == STACK_FRAMES_BASE && m.serial == 1 && m.closures == map[] && m.process != m.nil
    requires STACK_FRAMES_BASE + FRAME_RECEIVER + m.methods[m.stack[3].addr].frameSlots <= |m.stack|
    requires MethodsOk(m) && m.methods.Keys <= m.objects && m.Valid(m.nil)
    requires forall i :: 0 <= i < |m.stack| ==> m.Valid(m.stack[i])
    ensures Wf(m, History([STACK_FRAMES_BASE], [1], 1, map[]))
  {
    var h := History([STACK_FRAMES_BASE], [1], 1, map[]);
    assert Shape(h);
    FlagsWordReads(false, false, false, false, 1);
    hide HasFlag;
    assert FrameOk(m, h, 0) && PendingOk(m, h, 0);
    AllFramesOk(m, h);
  }

  lemma SameLayout(m: Machine, m': Machine, b: nat, callee: Addr, dest: nat, argc: nat, flags: int, fs: nat)
    requires m'.stack == m.stack && m'.frame == m.frame && m'.pc == m.pc && m'.nil == m.nil
    ensures NewFrame(m', b, callee, dest, argc, flags, fs) == NewFrame(m, b, callee, dest, argc, flags, fs)
  {
  }

  lemma ArmedClosure(m: Machine, b: nat)
    requires ArmedBlock(m, b).Some?
    ensures ArmedBlock(m, b).value in m.closures
  {
  }

  lemma UnwindLost(m: Machine, target: nat, value: Value, e: Error)
    requires Scan(m, target) == Lost(e)
    ensures Unwind(m, target, value) == Failed(e)
    ensures forall m' :: Shows(Unwind(m, target, value), Fatal(e), m')
  {
    hide Scan;
  }

  lemma UnwindArrives(m: Machine, target: nat, value: Value, m1: Machine)
    requires Scan(m, target) == AtTarget(m1)
    ensures Unwind(m, target, value) == Return(m1, value)
  {
    hide Scan, Return;
  }

  lemma UnwindStops(m: Machine, target: nat, value: Value, m1: Machine, closure: Addr)
    requires Scan(m, target) == AtEnsure(m1, closure) && closure in m1.closures
    ensures Unwind(m, target, value) == RunEnsure(m1, target, value, closure)
  {
    hide Scan, RunEnsure;
  }

  lemma ReturnContinues(m: Machine)
    requires m.Flag(m.frame, FLAG_UNWINDCONT)
    ensures forall v :: Return(m, v) == Return(m, Int(0))
  {
    hide Unwind;
  }

  lemma ShowsFatal(o: Outcome, e: Error, m: Machine)
    requires o == Failed(e)
    ensures Shows(o, Fatal(e), m)
  {
  }
}
