/**
 * Function calls on the machine: the arguments on the stack, the two words of linkage the
 * program never sees, the frame of the callee, and the way back.
 */
module Calls {
  import opened Words
  import opened Codegen
  import opened Semantics
  import opened Simulation
  import M = Machine

  // The frame pointer and the stack pointer are addresses.
  predicate InStack(bp: int, sp: int) {
    0 <= bp < WORD_LIMIT && sp <= WORD_LIMIT
  }

  // The values lie on the stack below `sp`, the first one on top.
  predicate ArgsAt(m: Memory, sp: int, vs: seq<Word>)
    decreases |vs|
  {
    |vs| == 0 || (Holds(m, sp - 4, vs[0]) && ArgsAt(m, sp - 4, vs[1..]))
  }

  lemma {:induction false} ArgsKept(m: Memory, m': Memory, sp: int, vs: seq<Word>)
    requires ArgsAt(m, sp, vs) && m'.Keys == m.Keys
    requires forall a :: a in m && sp - 4 * |vs| <= a < sp ==> m'[a] == m[a]
    ensures ArgsAt(m', sp, vs)
    decreases |vs|
  {
    if |vs| > 0 {
      ArgsKept(m, m', sp - 4, vs[1..]);
    }
  }

  // After pushing the arguments: the stack pointer is below them and they hold.
  ghost predicate ArgsPushed(p: Program, text: Memory, bp: int, sp: int, st: State, s: M.Machine, vs: seq<Word>,
                             st1: State, t: M.Machine) {
    && Sim(p, text, bp, sp, st, s) && Sim(p, text, bp, sp - 4 * |vs|, st1, t)
    && M.Reaches(s, t) && st1.mem.own == st.mem.own
    && Frame(s.mem, t.mem, st.mem.own, p.limit, sp)
    && ArgsAt(t.mem, sp, vs)
    && (|vs| > 0 ==> Room(p, sp, |vs|))
  }

  lemma OneMoreArg(p: Program, text: Memory, bp: int, sp: int, st: State, s: M.Machine, st1: State, w: M.Machine,
                   vs: seq<Word>, st2: State, t: M.Machine)
    requires Pushed(p, text, bp, sp, st, s, st1.ax, st1, w) && ArgsPushed(p, text, bp, sp - 4, st1, w, vs, st2, t)
    ensures ArgsPushed(p, text, bp, sp, st, s, [st1.ax] + vs, st2, t)
  {
    hide M.Reaches, Agree, Safe;
    M.ReachesTransitive(s, w, t);
    SimParts(p, text, bp, sp, st, s);
    assert ([st1.ax] + vs)[1..] == vs;
    assert forall a :: sp - 4 <= a < sp ==> a in w.mem && t.mem[a] == w.mem[a];
  }

  // The evaluator's view of the arguments is what the machine pushed.
  lemma {:induction false} ArgsAgree(m: Memory, val: Memory, sp: int, vs: seq<Word>)
    requires Agree(m, val) && ArgsAt(m, sp, vs)
    ensures Agree(m, WithArgs(val, sp, vs))
    ensures WithArgs(val, sp, vs).Keys == val.Keys + Range(sp - 4 * |vs|, sp)
    decreases |vs|
  {
    if |vs| > 0 {
      var val1 := StoreWord(val, sp - 4, vs[0]);
      StoredAgrees(m, val, sp - 4, vs[0]);
      hide StoreWord, Holds, Agree;
      ArgsAgree(m, val1, sp - 4, vs[1..]);
    }
  }

  lemma StoredAgrees(m: Memory, val: Memory, a: int, v: Word)
    requires Agree(m, val) && Holds(m, a, v)
    ensures Agree(m, StoreWord(val, a, v)) && StoreWord(val, a, v).Keys == val.Keys + Range(a, a + 4)
  {
  }

  // The two words the program does not see: the caller's frame pointer and return address.
  ghost predicate Linked(m: Memory, own: set<int>, bp: int, sp: int, saved: Word, ret: Word) {
    && Holds(m, bp, saved) && Holds(m, bp + 4, ret)
    && sp <= bp && forall a :: bp <= a < bp + 8 ==> a !in own
  }

  lemma LinkKept(m: Memory, m': Memory, own: set<int>, limit: int, bp: int, sp: int, saved: Word, ret: Word)
    requires Linked(m, own, bp, sp, saved, ret) && Frame(m, m', own, limit, sp)
    ensures Linked(m', own, bp, sp, saved, ret)
  {
  }

  // The function has returned to `ret`.
  ghost predicate Returns(p: Program, text: Memory, bp: int, sp: int, st: State, s: M.Machine, saved: Word, ret: Word,
                          st1: State, t: M.Machine) {
    && M.Reaches(s, t)
    && t.pc == ret && t.sp == bp + 8 && t.bp == saved && t.ax == st1.ax
    && Agree(t.mem, text) && Agree(t.mem, st1.mem.val)
    && Frame(s.mem, t.mem, st.mem.own, p.limit, sp)
    && st1.mem.own == st.mem.own && st1.mem.val.Keys <= st1.mem.own
  }

  lemma LeaveStep(p: Program, text: Memory, bp: int, sp: int, st: State, s: M.Machine, saved: Word, ret: Word,
                  st1: State, t: M.Machine)
    returns (u: M.Machine)
    requires Goes(p, text, bp, sp, st, s, st1, t) && Linked(s.mem, st.mem.own, bp, sp, saved, ret)
    requires CodeAt(text, t.pc, [Op(M.LEV)])
    ensures Returns(p, text, bp, sp, st, s, saved, ret, st1, u)
  {
    hide Holds, HasWord, LoadWord, Agree, CodeAt, M.Step, M.StepPlain, M.Reaches;
    LinkKept(s.mem, t.mem, st.mem.own, p.limit, bp, sp, saved, ret);
    u := t.(sp := bp + 8, bp := saved, pc := ret);
    CodeAtOne(text, t.pc, M.LEV);
    FetchPlain(text, t, M.LEV);
    HoldsLoads(t.mem, bp, saved);
    HoldsLoads(t.mem, bp + 4, ret);
    PlainLeave(t.(pc := t.pc + 4));
    M.ReachesStep(t, u);
    M.ReachesTransitive(s, t, u);
  }

  lemma PlainLeave(s: M.Machine)
    requires HasWord(s.mem, s.bp) && HasWord(s.mem, s.bp + 4)
    ensures M.StepPlain(s, M.LEV)
         == M.Next(s.(sp := s.bp + 8, bp := LoadWord(s.mem, s.bp), pc := LoadWord(s.mem, s.bp + 4)))
  {
    hide HasWord, LoadWord;
  }

  // A run followed by a return.
  lemma GoesReturns(p: Program, text: Memory, bp: int, sp: int, st: State, s: M.Machine, saved: Word, ret: Word,
                    st1: State, t: M.Machine, st2: State, u: M.Machine)
    requires Goes(p, text, bp, sp, st, s, st1, t) && Returns(p, text, bp, sp, st1, t, saved, ret, st2, u)
    ensures Returns(p, text, bp, sp, st, s, saved, ret, st2, u)
  {
    M.ReachesTransitive(s, t, u);
    hide M.Reaches, Sim;
  }

  // CALL: the return address is pushed.
  lemma CallStep(p: Program, text: Memory, bp: int, sp: int, st: State, s: M.Machine, entry: Word)
    returns (t: M.Machine, ret: Word)
    requires Sim(p, text, bp, sp, st, s) && Room(p, sp, 1) && InSpace(text)
    requires CodeAt(text, s.pc, [Op(M.CALL), Arg(entry)])
    ensures ret == s.pc + 8 && t.pc == entry
    ensures M.Reaches(s, t) && Sim(p, text, bp, sp - 4, st, t)
    ensures Frame(s.mem, t.mem, st.mem.own, p.limit, sp) && Holds(t.mem, sp - 4, ret)
  {
    hide ToWord, Sim, Agree, StoreWord, LoadWord, Holds, HasWord, CodeAt, Frame, InSpace, Room, M.Step, M.StepOperand,
         M.Reaches;
    CodeAddress(text, s.pc, [Op(M.CALL), Arg(entry)]);
    CodeAtPair(text, s.pc, M.CALL, Arg(entry));
    SimParts(p, text, bp, sp, st, s);
    FetchOperand(text, s, M.CALL, entry);
    ret := s.pc + 8;
    StoreBelow(p, text, bp, sp, st, s, ret);
    t := M.PushWord(s, ret).(pc := entry);
    WordItself(ret);
    PushedOperand(s, M.CALL, entry);
    M.ReachesStep(s, t);
    SimPc(p, text, bp, sp - 4, st, M.PushWord(s, ret), entry);
  }

  // What CALL and ENT do, given room on the stack.
  lemma PushedOperand(s: M.Machine, op: Word, v: Word)
    requires HasWord(s.mem, s.sp - 4)
    ensures op == M.CALL ==> M.StepOperand(s, op, v) == M.Next(M.PushWord(s, ToWord(s.pc + 8)).(pc := v))
    ensures op == M.ENT ==>
      (M.StepOperand(s, op, v)
       == M.Next(M.PushWord(s, ToWord(s.bp)).(pc := s.pc + 8, bp := s.sp - 4, sp := s.sp - 4 - 4 * Signed(v))))
  {
    hide StoreWord;
  }

  // ENT: the frame pointer is pushed and the locals are left room.
  lemma EnterStep(p: Program, text: Memory, bp: int, sp: int, st: State, s: M.Machine, locals: nat)
    returns (t: M.Machine, saved: Word)
    requires Sim(p, text, bp, sp, st, s) && Room(p, sp, 1) && 0 <= bp < WORD_LIMIT && locals < 0x8000_0000
    requires CodeAt(text, s.pc, [Op(M.ENT), Arg(ToWord(locals))])
    ensures saved == bp && t.pc == s.pc + 8 && t.bp == sp - 4 && t.sp == sp - 4 - 4 * locals && t.ax == s.ax
    ensures M.Reaches(s, t) && Sim(p, text, bp, sp - 4, st, t.(bp := bp, sp := sp - 4))
    ensures Frame(s.mem, t.mem, st.mem.own, p.limit, sp) && Holds(t.mem, sp - 4, saved)
  {
    hide ToWord, Signed, Sim, Agree, StoreWord, LoadWord, Holds, HasWord, CodeAt, Frame, Room, M.Step, M.StepOperand,
         M.Reaches;
    var k := ToWord(locals);
    CodeAtPair(text, s.pc, M.ENT, Arg(k));
    SimParts(p, text, bp, sp, st, s);
    FetchOperand(text, s, M.ENT, k);
    saved := bp;
    StoreBelow(p, text, bp, sp, st, s, saved);
    t := M.PushWord(s, saved).(pc := s.pc + 8, bp := sp - 4, sp := sp - 4 - 4 * locals);
    SignedItself(locals);
    WordItself(bp);
    PushedOperand(s, M.ENT, k);
    M.ReachesStep(s, t);
    SimPc(p, text, bp, sp - 4, st, M.PushWord(s, saved), s.pc + 8);
    assert t.(bp := bp, sp := sp - 4) == M.PushWord(s, saved).(pc := s.pc + 8);
  }

  // Addresses below `sp` and above the temporaries that nobody owns.
  ghost predicate Unowned(text: Memory, lo: int, hi: int, m: UserMemory, keys: set<int>) {
    forall a :: lo <= a < hi ==> a in keys && a !in text && a !in m.own
  }

  // The new frame belongs to the callee.
  lemma FrameEntered(p: Program, text: Memory, bp: int, sp: int, st: State, s: M.Machine, vs: seq<Word>, locals: nat,
                     w: M.Machine, saved: Word, ret: Word)
    requires ArgsAt(s.mem, sp, vs) && Unowned(text, sp - 4 * |vs|, sp, st.mem, s.mem.Keys)
    requires FrameBase(sp, |vs|) - 4 * locals >= p.limit
    requires Sim(p, text, bp, FrameBase(sp, |vs|), st, w) && Frame(s.mem, w.mem, st.mem.own, p.limit, sp - 4 * |vs|)
    requires Unowned(text, p.limit, sp - 4 * |vs|, st.mem, s.mem.Keys)
    requires Holds(w.mem, FrameBase(sp, |vs|), saved) && Holds(w.mem, FrameBase(sp, |vs|) + 4, ret)
    ensures var bp' := FrameBase(sp, |vs|);
      var sp' := bp' - 4 * locals;
      var st' := State(st.ax, Enter(st.mem, sp, vs, locals));
      Sim(p, text, bp', sp', st', w.(bp := bp', sp := sp')) && Linked(w.mem, st'.mem.own, bp', sp', saved, ret)
  {
    hide ArgsAt, Holds, WithArgs, Agree, HasWord;
    ArgsKept(s.mem, w.mem, sp, vs);
    ArgsAgree(w.mem, st.mem.val, sp, vs);
  }

  lemma SafeUnowned(p: Program, text: Memory, bp: int, sp: int, low: int, st: State, s: M.Machine, st1: State,
                    t: M.Machine)
    requires Sim(p, text, bp, sp, st, s) && p.limit <= low <= sp
    requires st1.mem.own == st.mem.own && t.mem.Keys == s.mem.Keys
    ensures Unowned(text, low, sp, st1.mem, t.mem.Keys) && Unowned(text, p.limit, low, st1.mem, t.mem.Keys)
  {
  }

  // The whole entry: from the pushed arguments to the start of the body.
  lemma CallEnters(p: Program, text: Memory, bp: int, sp: int, st0: State, s0: M.Machine, vs: seq<Word>, st: State,
                   s: M.Machine,
                   entry: Word, locals: nat)
    returns (t: M.Machine, saved: Word, ret: Word)
    requires ArgsPushed(p, text, bp, sp, st0, s0, vs, st, s) && InStack(bp, sp) && 0 <= p.limit
    requires CodeAt(text, s.pc, [Op(M.CALL), Arg(entry)]) && InSpace(text)
    requires CodeAt(text, entry, [Op(M.ENT), Arg(ToWord(locals))])
    requires FrameBase(sp, |vs|) - 4 * locals >= p.limit
    ensures saved == bp && ret == s.pc + 8 && t.pc == entry + 8 && M.Reaches(s0, t)
    ensures var bp' := FrameBase(sp, |vs|);
      var sp' := bp' - 4 * locals;
      var st' := State(st.ax, Enter(st.mem, sp, vs, locals));
      && Sim(p, text, bp', sp', st', t)
      && Linked(t.mem, st'.mem.own, bp', sp', saved, ret)
      && Frame(s0.mem, t.mem, st0.mem.own, p.limit, sp)
  {
    hide Sim, ArgsAt, Unowned, CodeAt, Linked, Enter, Holds, ToWord, InSpace, M.Reaches;
    var low := sp - 4 * |vs|;
    SafeUnowned(p, text, bp, sp, low, st0, s0, st, s);
    var u;
    u, ret := CallStep(p, text, bp, low, st, s, entry);
    t, saved := EnterStep(p, text, bp, low - 4, st, u, locals);
    var w := t.(bp := bp, sp := low - 8);
    RetKept(u.mem, t.mem, text, st.mem, s.mem.Keys, p.limit, low, ret);
    FrameEntered(p, text, bp, sp, st, s, vs, locals, w, saved, ret);
    M.ReachesTransitive(s, u, t);
    M.ReachesTransitive(s0, s, t);
  }

  lemma RetKept(m: Memory, m': Memory, text: Memory, mem: UserMemory, keys: set<int>, limit: int, low: int, ret: Word)
    requires Frame(m, m', mem.own, limit, low - 4) && Holds(m, low - 4, ret)
    requires Unowned(text, limit, low, mem, keys) && limit <= low - 4
    ensures Holds(m', low - 4, ret)
  {
  }

  // The way back: the caller's state, with the stack pointer still below the arguments.
  lemma CallReturns(p: Program, text: Memory, bp: int, sp: int, st0: State, s0: M.Machine, n: nat, t: M.Machine,
                    sp': int, st': State, saved: Word, ret: Word, st2: State, w: M.Machine)
    requires Sim(p, text, bp, sp, st0, s0) && M.Reaches(s0, t) && Frame(s0.mem, t.mem, st0.mem.own, p.limit, sp)
    requires Returns(p, text, FrameBase(sp, n), sp', st', t, saved, ret, st2, w)
    requires saved == bp && p.limit <= sp' <= sp
    requires st0.mem.own <= st'.mem.own <= st0.mem.own + Range(p.limit, sp)
    ensures var st3 := State(st2.ax, Leave(st0.mem.own, st2.mem));
      && M.Reaches(s0, w) && w.pc == ret && w.sp == sp - 4 * n
      && Sim(p, text, bp, sp, st3, w.(sp := sp))
      && Frame(s0.mem, w.mem, st0.mem.own, p.limit, sp)
  {
    M.ReachesTransitive(s0, t, w);
    hide M.Reaches;
  }

  // ADJ: the arguments are removed.
  lemma AdjustStep(text: Memory, s: M.Machine, n: nat)
    requires Agree(s.mem, text) && CodeAt(text, s.pc, [Op(M.ADJ), Arg(ToWord(n))]) && n < 0x8000_0000
    ensures M.Step(s) == M.Next(s.(pc := s.pc + 8, sp := s.sp + 4 * n))
  {
    CodeAtPair(text, s.pc, M.ADJ, Arg(ToWord(n)));
    FetchOperand(text, s, M.ADJ, ToWord(n));
    SignedItself(n);
    hide ToWord, Signed;
  }

  // The pushed arguments fit between the limit and the stack pointer.
  lemma ArgsRoom(p: Program, text: Memory, bp: int, sp: int, st0: State, s0: M.Machine, vs: seq<Word>, st: State,
                 s: M.Machine)
    requires ArgsPushed(p, text, bp, sp, st0, s0, vs, st, s) && |vs| > 0 && sp <= WORD_LIMIT && 0 <= p.limit
    ensures |vs| < 0x8000_0000
  {
  }

  // The last instruction of a call with arguments.
  lemma RemoveArgs(p: Program, text: Memory, bp: int, sp: int, st0: State, s0: M.Machine, st: State, t: M.Machine,
                   n: nat)
    requires M.Reaches(s0, t) && t.sp == sp - 4 * n && n < 0x8000_0000
    requires Sim(p, text, bp, sp, st, t.(sp := sp)) && CodeAt(text, t.pc, [Op(M.ADJ), Arg(ToWord(n))])
    ensures M.Reaches(s0, t.(pc := t.pc + 8, sp := sp)) && Sim(p, text, bp, sp, st, t.(pc := t.pc + 8, sp := sp))
  {
    AdjustStep(text, t, n);
    var u := t.(pc := t.pc + 8, sp := sp);
    M.ReachesStep(t, u);
    M.ReachesTransitive(s0, t, u);
  }
}
