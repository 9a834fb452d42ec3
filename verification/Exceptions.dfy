/** CATCH and THROW: handlers nest through setjmp and longjmp, QUIT and BYE run past all but the outermost. */
module Exceptions {

  const E_OK := 0
  const E_QUIT := -56
  const E_BYE := -257

  predicate PassesInner(e: int) {
    e == E_QUIT || e == E_BYE
  }

  datatype IoSrc = IoSrc(buffer: int, in_: int, length: int, sz: int, sid: int)

  datatype Regs = Regs(sp: int, rp: int, tr0: int, ioSrc: IoSrc, ip: int)

  /** One running e4__exception_catch: what it saved, and the handler it replaced if it found one. */
  datatype Frame = Frame(regs: Regs, code: int, nested: bool, oldCtx: int)

  /** A task as far as exceptions go.  frames is the C stack of running catches, the innermost last; ctx
      names the one whose setjmp is armed. */
  datatype Exc = Exc(regs: Regs, frames: seq<Frame>, valid: bool, ctx: int, code: int)

  /** Outside of the handlers: the armed context is the innermost catch, the chain of replaced contexts
      leads outward one by one, and no code is pending. */
  predicate Sound(s: Exc) {
    && (s.valid <==> s.frames != [])
    && (s.valid ==> s.ctx == |s.frames| - 1)
    && s.code == E_OK
    && forall i :: 0 <= i < |s.frames| ==> SoundFrame(s.frames[i], i)
  }

  predicate SoundFrame(f: Frame, i: nat) {
    f.code == E_OK && (f.nested <==> i > 0) && (f.nested ==> f.oldCtx == i - 1)
  }

  // ----- what happens, as functions -----

  function Entered(s: Exc): Exc {
    Exc(s.regs, s.frames + [Frame(s.regs, s.code, s.valid, s.ctx)], true, |s.frames|, s.code)
  }

  /** The token that a catch executed came back. */
  function Returned(s: Exc): Exc
    requires Sound(s) && s.frames != []
  {
    var n := |s.frames| - 1;
    Exc(s.regs, s.frames[..n], n > 0, if n > 0 then n - 1 else s.ctx, E_OK)
  }

  /** The catch that a throw of e ends. */
  function Catcher(s: Exc, e: int): nat
    requires Sound(s) && s.frames != []
  {
    if PassesInner(e) then 0 else |s.frames| - 1
  }

  function Thrown(s: Exc, e: int): Exc
    requires Sound(s)
  {
    if e == E_OK || s.frames == [] then s
    else
      var k := Catcher(s, e);
      var r := s.frames[k].regs;
      Exc(r.(sp := if e == E_QUIT then s.regs.sp else r.sp, ip := 0),
          s.frames[..k], k > 0, if k > 0 then k - 1 else 0, E_OK)
  }

  // ----- handlers in place -----

  class Task {
    var sp: int
    var rp: int
    var tr0: int
    var ioSrc: IoSrc
    var ip: int
    var valid: bool
    var ctx: int
    var code: int
    var frames: seq<Frame>

    constructor (regs: Regs)
      ensures Snapshot() == Exc(regs, [], false, 0, E_OK) && Sound(Snapshot())
    {
      sp, rp, tr0, ioSrc, ip := regs.sp, regs.rp, regs.tr0, regs.ioSrc, regs.ip;
      valid, ctx, code, frames := false, 0, E_OK, [];
    }

    function Snapshot(): Exc
      reads this
    {
      Exc(Regs(sp, rp, tr0, ioSrc, ip), frames, valid, ctx, code)
    }

    /** e4__exception_catch up to the call of e4__execute. */
    method Catch()
      requires Sound(Snapshot())
      modifies this
      ensures Snapshot() == Entered(old(Snapshot())) && Sound(Snapshot())
    {
      var saved := Frame(Regs(sp, rp, tr0, ioSrc, ip), code, valid, ctx);
      if !valid {
        valid := true;
      }
      frames := frames + [saved];
      ctx := |frames| - 1;
    }

    /** The rest of e4__exception_catch when e4__execute returned. */
    method Return() returns (result: int)
      requires Sound(Snapshot()) && frames != []
      modifies this
      ensures Snapshot() == Returned(old(Snapshot())) && Sound(Snapshot()) && result == E_OK
    {
      var f := frames[|frames| - 1];
      if f.nested {
        ctx := f.oldCtx;
      } else {
        valid := false;
      }
      result := code;
      code := f.code;
      frames := frames[..|frames| - 1];
    }

    /** e4__exception_throw, and what the handlers it jumps to do until one of them returns the code. */
    method Throw(e: int) returns (caught: bool, result: int)
      requires Sound(Snapshot())
      modifies this
      ensures Snapshot() == Thrown(old(Snapshot()), e) && Sound(Snapshot())
      ensures caught <==> e != E_OK && old(frames) != []
      ensures caught ==> result == e
    {
      if e == E_OK || !valid {
        return false, E_OK;
      }
      code := e;
      frames := frames[..ctx + 1];
      while frames[|frames| - 1].nested && (code == E_QUIT || code == E_BYE)
        invariant valid && frames != [] && frames == old(frames)[..|frames|] && ctx == |frames| - 1
        invariant code == e && sp == old(sp)
        invariant PassesInner(e) || |frames| == |old(frames)|
        decreases |frames|
      {
        ctx := frames[|frames| - 1].oldCtx;
        frames := frames[..ctx + 1];
      }
      var f := frames[|frames| - 1];
      if f.nested {
        ctx := f.oldCtx;
      } else {
        valid := false;
      }
      if code != E_QUIT {
        sp := f.regs.sp;
      }
      rp, tr0, ioSrc, ip := f.regs.rp, f.regs.tr0, f.regs.ioSrc, 0;
      caught, result := true, code;
      code := f.code;
      frames := frames[..|frames| - 1];
    }
  }

  // ----- runs -----

  /** What a program can do, Work standing for everything that is not about exceptions. */
  datatype Event = Catch | Return | Throw(e: int) | Work(regs: Regs)

  predicate Enabled(s: Exc, ev: Event) {
    ev.Return? ==> s.frames != []
  }

  function Apply(s: Exc, ev: Event): (t: Exc)
    requires Sound(s) && Enabled(s, ev)
    ensures Sound(t)
  {
    match ev
    case Catch => Entered(s)
    case Return => Returned(s)
    case Throw(e) => Thrown(s, e)
    case Work(regs) => s.(regs := regs)
  }

  /** A run from s to t on which more than d catches are running all the time. */
  ghost predicate LiveRun(s: Exc, evs: seq<Event>, d: nat, t: Exc)
    requires Sound(s)
    decreases |evs|
  {
    && |s.frames| > d
    && if evs == [] then t == s
       else Enabled(s, evs[0]) && LiveRun(Apply(s, evs[0]), evs[1..], d, t)
  }

  /** What happens inside a catch leaves its frame, and those outside, alone. */
  lemma {:induction false} LiveKeeps(s: Exc, evs: seq<Event>, d: nat, t: Exc)
    requires Sound(s) && LiveRun(s, evs, d, t)
    ensures Sound(t) && |t.frames| > d && t.frames[..d + 1] == s.frames[..d + 1]
    decreases |evs|
  {
    if evs == [] {
    } else {
      var s' := Apply(s, evs[0]);
      LiveKeeps(s', evs[1..], d, t);
      if s'.frames != s.frames {
        assert s'.frames[..d + 1] == s.frames[..d + 1];
      }
    }
  }

  predicate SameHandlers(s: Exc, t: Exc) {
    s.frames == t.frames && s.valid == t.valid && s.code == t.code && (s.valid ==> s.ctx == t.ctx)
  }

  /** Zero is never thrown, and without a catch nothing is. */
  lemma NotThrown(s: Exc, e: int)
    requires Sound(s) && (e == 0 || s.frames == [])
    ensures Thrown(s, e) == s
  {
  }

  /** The catch law.  A catch entered in s and ended by event ev in t, after anything at all: when it returns
      or an ordinary throw ends it, the handlers are those of its entry, and the throw has also restored
      the registers; QUIT (-56) and BYE (-257) end every catch there is and restore the registers of the outermost,
      sp excepted for QUIT. */
  lemma CatchLaw(s: Exc, evs: seq<Event>, t: Exc, ev: Event)
    requires Sound(s) && Sound(t) && LiveRun(Entered(s), evs, |s.frames|, t)
    requires Enabled(t, ev) && |Apply(t, ev).frames| <= |s.frames|
    ensures var u := Apply(t, ev);
      match ev
      case Catch => false
      case Work(_) => false
      case Return => SameHandlers(u, s) && u.regs == t.regs && |t.frames| == |s.frames| + 1
      case Throw(e) =>
        && e != E_OK
        && (e != -56 && e != -257 ==>
              SameHandlers(u, s) && u.regs == s.regs.(ip := 0) && |t.frames| == |s.frames| + 1)
        && (e == -56 || e == -257 ==>
              var outer := if s.frames == [] then s.regs else s.frames[0].regs;
              u.frames == [] && !u.valid &&
              u.regs == outer.(ip := 0, sp := if e == -56 then t.regs.sp else outer.sp))
  {
    var d := |s.frames|;
    LiveKeeps(Entered(s), evs, d, t);
    assert t.frames[d] == t.frames[..d + 1][d] == Entered(s).frames[d];
    assert t.frames[..d] == t.frames[..d + 1][..d] == s.frames;
    assert t.frames[0] == t.frames[..d + 1][0];
  }
}
