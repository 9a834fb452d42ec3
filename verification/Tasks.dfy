/** The interpreter as it works on a task: pointers into two arrays, updated in place.  Each method is
    proved to do what the Machine module says, so everything shown there holds of it.  The arrays are used
    upward; a pointer is the number of cells below it. */
module Tasks {
  import opened Words
  import opened Machine

  /** How a call ends: by returning, by throwing, without gas, or by leaving memory. */
  datatype Status = Running | Threw(code: int) | Halted | Crashed

  function Swapped(ds: seq<int>): seq<int>
    requires 2 <= |ds|
  {
    ds[..|ds| - 2] + [ds[|ds| - 1], ds[|ds| - 2]]
  }

  /** ROLL, its argument on top. */
  function Rolled(ds: seq<int>): seq<int>
    requires ds != [] && 0 <= ds[|ds| - 1] <= |ds| - 2
  {
    var n := |ds| - 1;
    var at := n - 1 - ds[n];
    ds[..at] + ds[at + 1..n] + [ds[at]]
  }

  /** u ROLL: the cell with u cells above it comes to the top, those move down by one, the rest stay. */
  lemma RolledAt(ds: seq<int>, i: nat)
    requires ds != [] && 0 <= ds[|ds| - 1] <= |ds| - 2 && i < |ds| - 1
    ensures var n, u := |ds| - 1, ds[|ds| - 1];
      && |Rolled(ds)| == n
      && Rolled(ds)[i] == if i == n - 1 then ds[n - 1 - u] else if i >= n - 1 - u then ds[i + 1] else ds[i]
  {
  }

  /** 0 ROLL does nothing, 1 ROLL is SWAP and 2 ROLL is ROT. */
  lemma SmallRolls(below: seq<int>, x: int, y: int, z: int)
    ensures Rolled(below + [x, 0]) == below + [x]
    ensures Rolled(below + [x, y, 1]) == below + [y, x]
    ensures Rolled(below + [x, y, z, 2]) == below + [y, z, x]
  {
  }

  class Task {
    const world: World
    const stack: array<int>
    const rstack: array<int>
    var sp: nat
    var rp: nat
    var tr0: int
    var ip: int

    constructor (world: World)
      ensures Valid() && fresh(stack) && fresh(rstack) && this.world == world
      ensures Now() == State(0, [], [], 0)
    {
      this.world := world;
      stack := new int[world.dcap];
      rstack := new int[world.rcap];
      sp, rp, tr0, ip := 0, 0, 0, 0;
    }

    ghost predicate Valid()
      reads this
    {
      && stack != rstack
      && sp <= stack.Length == world.dcap
      && rp <= rstack.Length == world.rcap
    }

    ghost function Now(): State
      requires Valid()
      reads this, stack, rstack
    {
      State(ip, stack[..sp], rstack[..rp], tr0)
    }

    /** A call that came to this end is one that the step describes. */
    ghost predicate Agrees(step: Step, st: Status)
      requires Valid()
      reads this, stack, rstack
    {
      match step
      case Next(s) => st == Running && Now() == s
      case Raise(code, ds) => st == Threw(code) && Now().ds == ds
      case Bad => st == Crashed
    }

    ghost predicate AgreesRun(r: Outcome, st: Status, left: nat)
      requires Valid()
      reads this, stack, rstack
    {
      match r
      case Done(s, g) => st == Running && Now() == s && left == g
      case Throw(code, ds) => st == Threw(code) && Now().ds == ds
      case Spent(s) => st == Halted && Now() == s
      case Fault => st == Crashed
    }

    // ----- stack.c -----

    method Push(v: int)
      requires Valid() && sp < stack.Length
      modifies this`sp, stack
      ensures Valid() && sp == old(sp) + 1 && Now() == old(Now()).(ds := old(Now().ds) + [v])
    {
      stack[sp] := v;
      sp := sp + 1;
    }

    method Pop() returns (v: int)
      requires Valid() && 0 < sp
      modifies this`sp
      ensures Valid() && sp == old(sp) - 1 && old(Now().ds) == Now().ds + [v] && Now() == old(Now()).(ds := Now().ds)
    {
      sp := sp - 1;
      v := stack[sp];
    }

    method Drop()
      requires Valid() && 0 < sp
      modifies this`sp
      ensures Valid() && Now() == old(Now()).(ds := Effect(DROP, old(Now().ds)))
    {
      sp := sp - 1;
    }

    method Dup()
      requires Valid() && 0 < sp < stack.Length
      modifies this`sp, stack
      ensures Valid() && Now() == old(Now()).(ds := Effect(DUP, old(Now().ds)))
    {
      stack[sp] := stack[sp - 1];
      sp := sp + 1;
    }

    method Over()
      requires Valid() && 1 < sp < stack.Length
      modifies this`sp, stack
      ensures Valid() && Now() == old(Now()).(ds := Effect(OVER, old(Now().ds)))
    {
      stack[sp] := stack[sp - 2];
      sp := sp + 1;
    }

    method Rot()
      requires Valid() && 2 < sp
      modifies stack
      ensures Valid() && Now() == old(Now()).(ds := Effect(ROT, old(Now().ds)))
    {
      var tmp := stack[sp - 3];
      stack[sp - 3] := stack[sp - 2];
      stack[sp - 2] := stack[sp - 1];
      stack[sp - 1] := tmp;
    }

    method Swap()
      requires Valid() && 1 < sp
      modifies stack
      ensures Valid() && Now() == old(Now()).(ds := Swapped(old(Now().ds)))
    {
      var tmp := stack[sp - 2];
      stack[sp - 2] := stack[sp - 1];
      stack[sp - 1] := tmp;
    }

    method Tuck()
      requires Valid() && 1 < sp < stack.Length
      modifies this`sp, stack
      ensures Valid() && Now() == old(Now()).(ds := Effect(TUCK, old(Now().ds)))
    {
      SwapEffect(Now().ds);
      Swap();
      Over();
    }

    /** e4__stack_roll: the cell u below the top comes up, those above it go down by one. */
    method Roll()
      requires Valid() && 0 < sp && 0 <= stack[sp - 1] && stack[sp - 1] + 2 <= sp
      modifies this`sp, stack
      ensures Valid() && Now() == old(Now()).(ds := Rolled(old(Now().ds)))
    {
      sp := sp - 1;
      RollCells(stack, sp, stack[sp]);
    }

    method RPush(v: int)
      requires Valid() && rp < rstack.Length
      modifies this`rp, rstack
      ensures Valid() && rp == old(rp) + 1 && Now() == old(Now()).(rs := old(Now().rs) + [v])
    {
      rstack[rp] := v;
      rp := rp + 1;
    }

    method RPop() returns (v: int)
      requires Valid() && 0 < rp
      modifies this`rp
      ensures Valid() && rp == old(rp) - 1 && old(Now().rs) == Now().rs + [v] && Now() == old(Now()).(rs := Now().rs)
    {
      rp := rp - 1;
      v := rstack[rp];
    }

    // ----- builtins -----

    /** e4__execute_ret */
    method ExecuteRet() returns (st: Status)
      requires Valid()
      modifies this`ip, this`rp
      ensures Valid() && Agrees(Ret(old(Now())), st)
    {
      if rp - tr0 < 1 {
        return Threw(E_RSTKUNDERFLOW);
      }
      if rp == 0 {
        return Crashed;
      }
      ip := RPop();
      st := Running;
    }

    /** Words that only touch the data stack. */
    method DataCode(b: Builtin) returns (st: Status)
      requires Valid() && IsData(b)
      modifies this`sp, this`ip, this`rp, stack
      ensures Valid() && Agrees(DataStep(world, b, old(Now())), st)
    {
      if sp < Pops(b) {
        return Threw(E_STKUNDERFLOW);
      }
      if stack.Length - sp < Room(b) {
        return Threw(E_STKOVERFLOW);
      }
      DataWork(b);
      st := ExecuteRet();
    }

    method BinaryWork(b: Builtin)
      requires Valid() && IsBinary(b) && 2 <= sp
      modifies this`sp, stack
      ensures Valid()
      ensures var ds := old(Now().ds);
        Now() == old(Now()).(ds := ds[..|ds| - 2] + [Binary(b, ds[|ds| - 2], ds[|ds| - 1])])
    {
      hide Binary;
      var r := Pop();
      var l := Pop();
      Push(Binary(b, l, r));
    }

    method PushDepth()
      requires Valid() && sp < stack.Length
      modifies this`sp, stack
      ensures Valid() && Now() == old(Now()).(ds := Effect(DEPTH, old(Now().ds)))
    {
      Push(sp);
    }

    method UnaryWork(b: Builtin)
      requires Valid() && (b == INVERT || b == NEGATE) && 1 <= sp
      modifies this`sp, stack
      ensures Valid() && Now() == old(Now()).(ds := Effect(b, old(Now().ds)))
    {
      var v := Pop();
      Push(if b == INVERT then MODULUS - 1 - v else (MODULUS - v) % MODULUS);
    }

    method DataWork(b: Builtin)
      requires Valid() && IsData(b) && Pops(b) <= sp && sp + Room(b) <= stack.Length
      modifies this`sp, stack
      ensures Valid() && Now() == old(Now()).(ds := Effect(b, old(Now().ds)))
    {
      hide Effect;
      ghost var ds := Now().ds;
      if IsBinary(b) {
        BinaryEffect(b, ds);
        BinaryWork(b);
      } else if b == DEPTH {
        PushDepth();
      } else if b == DROP {
        Drop();
      } else if b == DUP {
        Dup();
      } else if b == OVER {
        Over();
      } else if b == ROT {
        Rot();
      } else if b == SWAP {
        SwapEffect(ds);
        Swap();
      } else if b == TUCK {
        Tuck();
      } else {
        UnaryWork(b);
      }
    }

    // Words that use the return stack.  The top of it is their own return address, which goes first.

    method ToRCode() returns (st: Status)
      requires Valid()
      modifies this`sp, this`rp, this`ip, stack, rstack
      ensures Valid() && Agrees(FrameStep(world, TO_R, old(Now())), st)
    {
      if sp < 1 {
        return Threw(E_STKUNDERFLOW);
      }
      if rstack.Length - rp < 1 {
        return Threw(E_RSTKOVERFLOW);
      }
      if rp - tr0 < 1 {
        return Threw(E_RSTKUNDERFLOW);
      }
      if rp < 1 {
        return Crashed;
      }
      ip := RPop();
      var v := Pop();
      RPush(v);
      st := Running;
    }

    method RFromCode() returns (st: Status)
      requires Valid()
      modifies this`sp, this`rp, this`ip, stack, rstack
      ensures Valid() && Agrees(FrameStep(world, R_FROM, old(Now())), st)
    {
      if rp - tr0 < 2 {
        return Threw(E_RSTKUNDERFLOW);
      }
      if stack.Length - sp < 1 {
        return Threw(E_STKOVERFLOW);
      }
      if rp < 2 {
        return Crashed;
      }
      ip := RPop();
      var v := RPop();
      Push(v);
      st := Running;
    }

    method RFetchCode() returns (st: Status)
      requires Valid()
      modifies this`sp, this`rp, this`ip, stack, rstack
      ensures Valid() && Agrees(FrameStep(world, R_FETCH, old(Now())), st)
    {
      if rp - tr0 < 2 {
        return Threw(E_RSTKUNDERFLOW);
      }
      if stack.Length - sp < 1 {
        return Threw(E_STKOVERFLOW);
      }
      if rp < 2 {
        return Crashed;
      }
      ip := RPop();
      Push(rstack[rp - 1]);
      st := Running;
    }

    method JCode() returns (st: Status)
      requires Valid()
      modifies this`sp, this`rp, this`ip, stack, rstack
      ensures Valid() && Agrees(FrameStep(world, J, old(Now())), st)
    {
      if rp - tr0 < 5 {
        return Threw(E_RSTKUNDERFLOW);
      }
      if stack.Length - sp < 1 {
        return Threw(E_STKOVERFLOW);
      }
      if rp < 5 {
        return Crashed;
      }
      ip := RPop();
      Push(rstack[rp - 3]);
      st := Running;
    }

    method UnloopCode() returns (st: Status)
      requires Valid()
      modifies this`sp, this`rp, this`ip, stack, rstack
      ensures Valid() && Agrees(FrameStep(world, UNLOOP, old(Now())), st)
    {
      if rp - tr0 < 3 {
        return Threw(E_RSTKUNDERFLOW);
      }
      if rp < 3 {
        return Crashed;
      }
      ip := RPop();
      var index := RPop();
      var limit := RPop();
      st := Running;
    }

    /** SWAP and then both cells to the return stack, so that they keep their order. */
    method MovePair()
      requires Valid() && 2 <= sp && rp + 2 <= rstack.Length
      modifies this`sp, this`rp, stack, rstack
      ensures Valid()
      ensures var t, d := old(Now()), old(sp);
        Now() == t.(ds := t.ds[..d - 2], rs := t.rs + [t.ds[d - 2], t.ds[d - 1]])
    {
      ghost var s := Now();
      ghost var n := |s.ds|;
      Swap();
      var l := Pop();
      assert l == s.ds[n - 2] && Now() == s.(ds := s.ds[..n - 2] + [s.ds[n - 1]]);
      RPush(l);
      var r := Pop();
      assert r == s.ds[n - 1] && Now() == s.(ds := s.ds[..n - 2], rs := s.rs + [l]);
      RPush(r);
      assert s.rs + [l] + [r] == s.rs + [l, r];
    }

    method TwoToRCode() returns (st: Status)
      requires Valid()
      modifies this`sp, this`rp, this`ip, stack, rstack
      ensures Valid() && Agrees(FrameStep(world, TWO_TO_R, old(Now())), st)
    {
      if sp < 2 {
        return Threw(E_STKUNDERFLOW);
      }
      if rstack.Length - rp < 2 {
        return Threw(E_RSTKOVERFLOW);
      }
      if rp - tr0 < 1 {
        return Threw(E_RSTKUNDERFLOW);
      }
      if rp < 1 {
        return Crashed;
      }
      ip := RPop();
      MovePair();
      st := Running;
    }

    /** Two cells over to the data stack one by one, and SWAP. */
    method TakePair()
      requires Valid() && 2 <= rp && sp + 2 <= stack.Length
      modifies this`sp, this`rp, stack
      ensures Valid()
      ensures var t, n := old(Now()), old(rp);
        Now() == t.(ds := t.ds + [t.rs[n - 2], t.rs[n - 1]], rs := t.rs[..n - 2])
    {
      ghost var ds := Now().ds;
      var r := RPop();
      Push(r);
      var l := RPop();
      Push(l);
      assert Now().ds == ds + [r, l];
      Swap();
    }

    method TwoRFromCode() returns (st: Status)
      requires Valid()
      modifies this`sp, this`rp, this`ip, stack, rstack
      ensures Valid() && Agrees(FrameStep(world, TWO_R_FROM, old(Now())), st)
    {
      if rp - tr0 < 3 {
        return Threw(E_RSTKUNDERFLOW);
      }
      if stack.Length - sp < 2 {
        return Threw(E_STKOVERFLOW);
      }
      if rp < 3 {
        return Crashed;
      }
      ip := RPop();
      TakePair();
      st := Running;
    }

    /** Two cells off the return stack and back, with a copy on the data stack. */
    method CopyPair()
      requires Valid() && 2 <= rp && sp + 2 <= stack.Length
      modifies this`sp, this`rp, stack, rstack
      ensures Valid()
      ensures var t, n := old(Now()), old(rp);
        Now() == t.(ds := t.ds + [t.rs[n - 2], t.rs[n - 1]])
    {
      ghost var rs := Now().rs;
      var r := RPop();
      var l := RPop();
      assert rs == Now().rs + [l, r];
      Push(l);
      Push(r);
      RPush(l);
      RPush(r);
    }

    method TwoRFetchCode() returns (st: Status)
      requires Valid()
      modifies this`sp, this`rp, this`ip, stack, rstack
      ensures Valid() && Agrees(FrameStep(world, TWO_R_FETCH, old(Now())), st)
    {
      if rp - tr0 < 3 {
        return Threw(E_RSTKUNDERFLOW);
      }
      if stack.Length - sp < 2 {
        return Threw(E_STKOVERFLOW);
      }
      if rp < 3 {
        return Crashed;
      }
      ip := RPop();
      CopyPair();
      st := Running;
    }

    method FrameCode(b: Builtin) returns (st: Status)
      requires Valid() && IsFrameWord(b)
      modifies this`sp, this`rp, this`ip, stack, rstack
      ensures Valid() && Agrees(FrameStep(world, b, old(Now())), st)
    {
      hide FrameStep;
      if b == J {
        st := JCode();
      } else if b == R_FETCH {
        st := RFetchCode();
      } else if b == R_FROM {
        st := RFromCode();
      } else if b == TO_R {
        st := ToRCode();
      } else if b == TWO_R_FETCH {
        st := TwoRFetchCode();
      } else if b == TWO_R_FROM {
        st := TwoRFromCode();
      } else if b == TWO_TO_R {
        st := TwoToRCode();
      } else {
        st := UnloopCode();
      }
    }

    // Words that read the cell their return address points at.

    method BranchCode() returns (st: Status)
      requires Valid()
      modifies this`rp, this`ip
      ensures Valid() && Agrees(InlineStep(world, BRANCH, old(Now())), st)
    {
      hide StringCells;
      if rp - tr0 < 1 {
        return Threw(E_RSTKUNDERFLOW);
      }
      if rp == 0 || !Readable(world, rstack[rp - 1]) {
        return Crashed;
      }
      var at := RPop();
      ip := (at + world.mem[at]) % MODULUS;
      st := Running;
    }

    method Branch0Code() returns (st: Status)
      requires Valid()
      modifies this`sp, this`rp, this`ip
      ensures Valid() && Agrees(InlineStep(world, BRANCH0, old(Now())), st)
    {
      hide StringCells;
      if rp - tr0 < 1 {
        return Threw(E_RSTKUNDERFLOW);
      }
      if sp < 1 {
        return Threw(E_STKUNDERFLOW);
      }
      if rp == 0 || !Readable(world, rstack[rp - 1]) {
        return Crashed;
      }
      var at := RPop();
      var flag := Pop();
      ip := if flag == 0 then (at + world.mem[at]) % MODULUS else at + 1;
      st := Running;
    }

    method LitCellCode() returns (st: Status)
      requires Valid()
      modifies this`sp, this`rp, this`ip, stack
      ensures Valid() && Agrees(InlineStep(world, LIT_CELL, old(Now())), st)
    {
      hide StringCells;
      if rp - tr0 < 1 {
        return Threw(E_RSTKUNDERFLOW);
      }
      if rp == 0 || !Readable(world, rstack[rp - 1]) {
        return Crashed;
      }
      var at := RPop();
      ip := at + 1;
      if stack.Length - sp < 1 {
        return Threw(E_STKOVERFLOW);
      }
      Push(world.mem[at]);
      st := Running;
    }

    method LitStrCode() returns (st: Status)
      requires Valid()
      modifies this`sp, this`rp, this`ip, stack
      ensures Valid() && Agrees(InlineStep(world, LIT_STR, old(Now())), st)
    {
      hide StringCells;
      if rp - tr0 < 1 {
        return Threw(E_RSTKUNDERFLOW);
      }
      if rp == 0 || !Readable(world, rstack[rp - 1]) {
        return Crashed;
      }
      ghost var ds := Now().ds;
      var at := RPop();
      var len := world.mem[at];
      ip := at + 1 + StringCells(len);
      if stack.Length - sp < 2 {
        return Threw(E_STKOVERFLOW);
      }
      Push(at + 1);
      Push(len);
      assert Now().ds == ds + [at + 1, len];
      st := Running;
    }

    method InlineCode(b: Builtin) returns (st: Status)
      requires Valid() && IsInline(b)
      modifies this`sp, this`rp, this`ip, stack
      ensures Valid() && Agrees(InlineStep(world, b, old(Now())), st)
    {
      hide InlineStep;
      if b == BRANCH {
        st := BranchCode();
      } else if b == BRANCH0 {
        st := Branch0Code();
      } else if b == LIT_CELL {
        st := LitCellCode();
      } else {
        st := LitStrCode();
      }
    }

    /** Any builtin written in C but EXECUTE. */
    method NativeCode(b: Builtin) returns (st: Status)
      requires Valid()
      modifies this`sp, this`rp, this`ip, stack, rstack
      ensures Valid() && Agrees(NativeStep(world, b, old(Now())), st)
    {
      hide DataStep, FrameStep, InlineStep;
      if IsData(b) {
        st := DataCode(b);
      } else if IsFrameWord(b) {
        st := FrameCode(b);
      } else if IsInline(b) {
        st := InlineCode(b);
      } else if b == SENTINEL {
        st := ExecuteRet();
      } else if b == EXIT {
        st := Threw(E_BUG);
      } else if b == THROW {
        if sp < 1 {
          return Threw(E_STKUNDERFLOW);
        }
        var ex := Pop();
        if ex != 0 {
          return Threw(SignedCode(ex));
        }
        st := ExecuteRet();
      } else {
        st := Crashed;
      }
    }

    // ----- the interpreter -----

    /** e4__execute */
    method Execute(xt: int, gas: nat) returns (st: Status, left: nat)
      requires Valid()
      modifies this`sp, this`rp, this`ip, this`tr0, stack, rstack
      ensures Valid() && AgreesRun(Machine.Execute(world, true, xt, old(Now()), gas), st, left)
      decreases gas, 0
    {
      if gas == 0 {
        return Halted, 0;
      }
      var ipValid := ip != 0;
      if rstack.Length - rp < 1 {
        return Threw(E_RSTKOVERFLOW), 0;
      }
      RPush(if ipValid then ip + 1 else 0);
      st, left := RunToken(xt, gas - 1);
      if st == Running && !ipValid {
        ip := 0;
      }
    }

    /** The code of a token. */
    method RunToken(xt: int, gas: nat) returns (st: Status, left: nat)
      requires Valid()
      modifies this`sp, this`rp, this`ip, this`tr0, stack, rstack
      ensures Valid() && AgreesRun(RunCode(world, true, xt, old(Now()), gas), st, left)
      decreases gas, 3
    {
      hide NativeStep, Machine.Execute, Machine.EnterThread;
      left := gas;
      if xt !in world.tokens {
        return Crashed, left;
      }
      match world.tokens[xt]
      case Native(b) =>
        if b == EXECUTE {
          if sp < 1 {
            return Threw(E_STKUNDERFLOW), left;
          }
          var target := Pop();
          st, left := Execute(target, gas);
          if st == Running {
            st := ExecuteRet();
          }
        } else {
          st := NativeCode(b);
        }
      case Threaded =>
        st, left := ExecuteThreaded(xt + 2, gas);
      case Thunk(table) =>
        st, left := ExecuteThreaded(table, gas);
      case Does(body) =>
        if stack.Length - sp < 1 {
          return Threw(E_STKOVERFLOW), left;
        }
        Push(xt + 2);
        st, left := ExecuteThreaded(body, gas);
      case Defer(target) =>
        st, left := Execute(target, gas);
        if st == Running {
          st := ExecuteRet();
        }
      case Constant(v) =>
        st := PushValue(v);
      case Variable =>
        st := PushValue(xt + 2);
    }

    method PushValue(v: int) returns (st: Status)
      requires Valid()
      modifies this`sp, this`rp, this`ip, stack
      ensures Valid() && Agrees(Machine.Push(world, old(Now()), v), st)
    {
      if stack.Length - sp < 1 {
        return Threw(E_STKOVERFLOW);
      }
      Push(v);
      st := ExecuteRet();
    }

    /** The check at the end of a thread. */
    method EndOfThread() returns (st: Status)
      requires Valid()
      modifies this`rp, this`ip, this`tr0
      ensures Valid() && Agrees(EndThread(old(Now())), st)
    {
      if rp != tr0 {
        return Threw(E_RSTKIMBALANCE);
      }
      if rp == 0 {
        return Crashed;
      }
      tr0 := RPop();
      st := ExecuteRet();
    }

    /** Enter a colon word without calling e4__execute. */
    method EnterColon(xt: int)
      requires Valid() && rp + 2 <= rstack.Length
      modifies this`rp, this`ip, this`tr0, rstack
      ensures Valid()
      ensures var t := old(Now());
        Now() == State(xt + 2, t.ds, t.rs + [t.ip + 1, t.tr0], |t.rs| + 2)
    {
      ghost var rs := Now().rs;
      RPush(ip + 1);
      RPush(tr0);
      assert Now().rs == rs + [ip + 1, tr0];
      tr0 := rp;
      ip := xt + 2;
    }

    /** e4__execute_threaded: colon words in a thread are not called but entered, and depth counts them. */
    method ExecuteThreaded(a: int, gas: nat) returns (st: Status, left: nat)
      requires Valid()
      modifies this`sp, this`rp, this`ip, this`tr0, stack, rstack
      ensures Valid() && AgreesRun(EnterThread(world, true, a, old(Now()), gas), st, left)
      decreases gas, 2
    {
      hide Machine.Execute, EndThread;
      left := gas;
      if rstack.Length - rp < 1 {
        return Threw(E_RSTKOVERFLOW), left;
      }
      RPush(tr0);
      tr0 := rp;
      ip := a;
      var depth := 1;
      ghost var start := Now();
      while depth > 0
        invariant Valid() && 0 <= depth && left <= gas
        invariant Loop(world, true, 1, start, gas) == Loop(world, true, depth, Now(), left)
        decreases left, depth
      {
        if !Readable(world, ip) {
          return Crashed, left;
        }
        var xt := world.mem[ip];
        if xt !in world.tokens {
          return Crashed, left;
        }
        if world.tokens[xt].Threaded? {
          if left == 0 {
            return Halted, left;
          }
          if rstack.Length - rp < 2 {
            return Threw(E_RSTKOVERFLOW), left;
          }
          depth := depth + 1;
          EnterColon(xt);
          left := left - 1;
        } else if xt == Xt(EXIT) {
          if left == 0 {
            return Halted, left;
          }
          depth := depth - 1;
          left := left - 1;
          if depth > 0 {
            st := EndOfThread();
            if st != Running {
              return;
            }
          }
        } else {
          st, left := Execute(xt, left);
          if st != Running {
            return;
          }
        }
      }
      st := EndOfThread();
    }
  }

  /** The loop of e4__stack_roll, on the cells below top. */
  method RollCells(a: array<int>, top: nat, u: nat)
    requires u < top <= a.Length
    modifies a
    ensures var at := top - 1 - u;
      a[..top] == old(a[..at]) + old(a[at + 1..top]) + [old(a[at])]
  {
    ghost var was, at := a[..], top - 1 - u;
    var left, tmp := u, a[top - 1 - u];
    while left > 0
      invariant 0 <= left <= u
      invariant forall i {:trigger a[i]} :: at <= i < top - 1 - left ==> a[i] == was[i + 1]
      invariant forall i {:trigger a[i]} :: 0 <= i < at || top - 1 - left <= i < top ==> a[i] == was[i]
    {
      a[top - 1 - left] := a[top - left];
      left := left - 1;
    }
    a[top - 1] := tmp;
    ghost var rolled := was[..at] + was[at + 1..top] + [was[at]];
    forall i | 0 <= i < top
      ensures a[i] == rolled[i]
    {
    }
    assert a[..top] == rolled;
  }

  lemma SwapEffect(ds: seq<int>)
    requires 2 <= |ds|
    ensures Effect(SWAP, ds) == Swapped(ds)
  {
  }

  lemma BinaryEffect(b: Builtin, ds: seq<int>)
    requires IsBinary(b) && 2 <= |ds|
    ensures Effect(b, ds) == ds[..|ds| - 2] + [Binary(b, ds[|ds| - 2], ds[|ds| - 1])]
  {
    hide Binary;
  }
}
