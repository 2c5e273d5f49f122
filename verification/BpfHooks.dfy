/**
The generators of the two programs as calls on the builder, the socket program's
theorem, and what a run of hooks leaves on one socket.
*/
module BpfHooks {
  import opened Bytes
  import opened BpfMachine
  import opened BpfAssembler
  import opened BpfPrograms

  // ----- generating the destination program -----

  lemma JoinNext(blocks: seq<seq<Sym>>, k: nat)
    requires k < |blocks|
    ensures Join(blocks[..k + 1]) == Join(blocks[..k]) + blocks[k]
  {
    assert blocks[..k + 1][..k] == blocks[..k];
  }

  method EmitTask(b: ProgramBuilder, off: i16)
    requires b.Valid()
    modifies b
    ensures b.Valid() && b.source == old(b.source) + TaskCalls(off) && b.labels == old(b.labels)
  {
    hide ProgramBuilder.Valid, Sym.WellFormed, NewInsn;
    b.Emit(MovReg(6, 1));
    b.Emit(CallHelper(GET_CURRENT_PID_TGID));
    b.Emit(RshImm(0, 32));
    b.Emit(StoreReg32(10, off, 0));
  }

  method EmitLookup(b: ProgramBuilder, fd: i32, off: i32)
    requires b.Valid()
    modifies b
    ensures b.Valid() && b.source == old(b.source) + LookupCalls(fd, off) && b.labels == old(b.labels)
  {
    hide ProgramBuilder.Valid, Sym.WellFormed, NewInsn;
    b.LoadMap(1, fd);
    b.Emit(MovReg(2, 10));
    b.Emit(AddImm(2, off));
    b.Emit(CallHelper(MAP_LOOKUP_ELEM));
  }

  method EmitSocketOption(b: ProgramBuilder, helper: i32)
    requires b.Valid()
    modifies b
    ensures b.Valid() && b.source == old(b.source) + SocketOptionCalls(helper) && b.labels == old(b.labels)
  {
    hide ProgramBuilder.Valid, Sym.WellFormed, NewInsn;
    b.Emit(MovReg(1, 6));
    b.Emit(MovImm(2, SOL_SOCKET));
    b.Emit(MovImm(3, SO_MARK));
    b.Emit(MovReg(4, 10));
    b.Emit(AddImm(4, -28));
    b.Emit(MovImm(5, 4));
    b.Emit(CallHelper(helper));
  }

  method EmitBaseline(b: ProgramBuilder)
    requires b.Valid() && b.labels.Keys == {}
    modifies b
    ensures b.Valid() && b.source == old(b.source) + BaselineCalls()
    ensures b.labels.Keys == {"application_baseline"}
  {
    hide ProgramBuilder.Valid;
    b.Emit(MovImm(8, 0));
    b.Jump(JumpEq(0, 0, "application_baseline"));
    b.Emit(MovImm(8, FWMARK_VALUE));
    b.PlaceLabel("application_baseline");
    b.Emit(CallHelper(GET_CURRENT_UID_GID));
    b.Emit(StoreReg32(10, -32, 0));
  }

  method EmitKey(b: ProgramBuilder, ipv6: bool)
    requires b.Valid()
    modifies b
    ensures b.Valid() && b.source == old(b.source) + KeyCalls(ipv6) && b.labels == old(b.labels)
  {
    hide ProgramBuilder.Valid, Sym.WellFormed, NewInsn;
    if ipv6 {
      b.Emit(StoreImm32(10, -24, 160));
      b.Emit(Load32(0, 10, -32));
      b.Emit(StoreReg32(10, -20, 0));
      b.Emit(Load64(0, 6, 8));
      b.Emit(StoreReg64(10, -16, 0));
      b.Emit(Load64(0, 6, 16));
      b.Emit(StoreReg64(10, -8, 0));
    } else {
      b.Emit(StoreImm32(10, -16, 64));
      b.Emit(Load32(0, 10, -32));
      b.Emit(StoreReg32(10, -12, 0));
      b.Emit(Load32(0, 6, 4));
      b.Emit(StoreReg32(10, -8, 0));
    }
  }

  method EmitBypass(b: ProgramBuilder)
    requires b.Valid() && b.labels.Keys == {"application_baseline"}
    modifies b
    ensures b.Valid() && b.source == old(b.source) + BypassCalls()
    ensures b.labels.Keys == {"application_baseline", "split_policy"}
  {
    b.Jump(JumpEq(0, 0, "split_policy"));
    b.Jump(Jump("exclude_destination"));
    b.PlaceLabel("split_policy");
  }

  method EmitMode(b: ProgramBuilder)
    requires b.Valid()
    modifies b
    ensures b.Valid() && b.source == old(b.source) + ModeCalls() && b.labels == old(b.labels)
  {
    hide ProgramBuilder.Valid, Sym.WellFormed, NewInsn;
    b.Jump(JumpEq(0, 0, "mark_socket"));
    b.Emit(Load32(7, 0, 0));
  }

  method EmitDecide(b: ProgramBuilder)
    requires b.Valid() && b.labels.Keys == {"application_baseline", "split_policy"}
    modifies b
    ensures b.Valid() && b.source == old(b.source) + DecideCalls()
    ensures b.labels.Keys
         == {"application_baseline", "split_policy", "exclude_destination", "mark_socket"}
  {
    hide ProgramBuilder.Valid;
    b.Jump(JumpEq(0, 0, "mark_socket"));
    b.Jump(JumpEq(7, 0, "exclude_destination"));
    b.Emit(MovImm(8, 0));
    b.Jump(Jump("mark_socket"));
    b.PlaceLabel("exclude_destination");
    b.Emit(MovImm(8, FWMARK_VALUE));
    b.PlaceLabel("mark_socket");
    b.Jump(JumpEq(8, FWMARK_VALUE, "set_mark"));
  }

  method EmitInspect(b: ProgramBuilder)
    requires b.Valid()
    modifies b
    ensures b.Valid() && b.source == old(b.source) + InspectCalls() && b.labels == old(b.labels)
  {
    hide ProgramBuilder.Valid, Sym.WellFormed, NewInsn;
    b.Emit(Load32(0, 10, -28));
    b.Jump(JumpNe(0, FWMARK_VALUE, "allow"));
    b.Emit(StoreImm32(10, -28, 0));
  }

  method EmitAfterClear(b: ProgramBuilder)
    requires b.Valid() && "set_mark" !in b.labels
    modifies b
    ensures b.Valid() && b.source == old(b.source) + AfterClearCalls()
    ensures b.labels.Keys == old(b.labels.Keys) + {"set_mark"}
  {
    b.Jump(Jump("allow"));
    b.PlaceLabel("set_mark");
    b.Emit(StoreImm32(10, -28, FWMARK_VALUE));
  }

  method EmitEnd(b: ProgramBuilder)
    requires b.Valid() && "allow" !in b.labels
    modifies b
    ensures b.Valid() && b.source == old(b.source) + EndCalls()
  {
    hide ProgramBuilder.Valid, Sym.WellFormed, NewInsn;
    b.PlaceLabel("allow");
    b.Emit(MovImm(0, 1));
    b.Emit(Exit());
  }

  /** The first `k` blocks of the destination program. */
  ghost function Blocks(fds: Fds, ipv6: bool, k: nat): seq<Sym>
    requires k <= 16
  {
    Join(DestinationBlocks(fds, ipv6)[..k])
  }

  lemma NoBlocks(fds: Fds, ipv6: bool)
    ensures Blocks(fds, ipv6, 0) == []
    ensures Blocks(fds, ipv6, 16) == DestinationSource(fds, ipv6)
  {
    assert DestinationBlocks(fds, ipv6)[..16] == DestinationBlocks(fds, ipv6);
  }

  lemma NextBlock(fds: Fds, ipv6: bool, k: nat)
    requires k < 16
    ensures Blocks(fds, ipv6, k + 1) == Blocks(fds, ipv6, k) + BlockNo(fds, ipv6, k)
  {
    JoinNext(DestinationBlocks(fds, ipv6), k);
  }

  /** The calls up to and including the mode lookup. */
  method EmitPolicy(b: ProgramBuilder, fds: Fds, ipv6: bool)
    requires b.Valid() && b.source == [] && b.labels == map[]
    modifies b
    ensures b.Valid() && b.source == Blocks(fds, ipv6, 8)
    ensures b.labels.Keys == {"application_baseline", "split_policy"}
  {
    hide TaskCalls, LookupCalls, BaselineCalls, KeyCalls, BypassCalls, ModeCalls;
    NoBlocks(fds, ipv6);
    EmitTask(b, -36);
    NextBlock(fds, ipv6, 0);
    EmitLookup(b, fds.pids, -36);
    NextBlock(fds, ipv6, 1);
    EmitBaseline(b);
    NextBlock(fds, ipv6, 2);
    EmitKey(b, ipv6);
    NextBlock(fds, ipv6, 3);
    EmitLookups(b, fds, ipv6);
  }

  /** The calls of the bypass and mode lookups. */
  method EmitLookups(b: ProgramBuilder, fds: Fds, ipv6: bool)
    requires b.Valid() && b.source == Blocks(fds, ipv6, 4) && b.labels.Keys == {"application_baseline"}
    modifies b
    ensures b.Valid() && b.source == Blocks(fds, ipv6, 8)
    ensures b.labels.Keys == {"application_baseline", "split_policy"}
  {
    hide ProgramBuilder.Valid, Blocks, LookupCalls, BypassCalls, ModeCalls;
    EmitLookup(b, fds.bypass, KeyOffset(ipv6));
    NextBlock(fds, ipv6, 4);
    EmitBypass(b);
    NextBlock(fds, ipv6, 5);
    EmitLookup(b, fds.modes, -32);
    NextBlock(fds, ipv6, 6);
    EmitMode(b);
    NextBlock(fds, ipv6, 7);
  }

  /** The calls from the range lookup on. */
  method EmitMarking(b: ProgramBuilder, fds: Fds, ipv6: bool)
    requires b.Valid() && b.source == Blocks(fds, ipv6, 8)
    requires b.labels.Keys == {"application_baseline", "split_policy"}
    modifies b
    ensures b.Valid() && b.source == Blocks(fds, ipv6, 16)
  {
    hide LookupCalls, DecideCalls, SocketOptionCalls, InspectCalls, AfterClearCalls, EndCalls;
    EmitLookup(b, fds.ranges, KeyOffset(ipv6));
    NextBlock(fds, ipv6, 8);
    EmitDecide(b);
    NextBlock(fds, ipv6, 9);
    EmitSocketOption(b, GETSOCKOPT);
    NextBlock(fds, ipv6, 10);
    EmitEnding(b, fds, ipv6);
  }

  /** The calls from the inspection of the current mark on. */
  method EmitEnding(b: ProgramBuilder, fds: Fds, ipv6: bool)
    requires b.Valid() && b.source == Blocks(fds, ipv6, 11)
    requires b.labels.Keys
          == {"application_baseline", "split_policy", "exclude_destination", "mark_socket"}
    modifies b
    ensures b.Valid() && b.source == Blocks(fds, ipv6, 16)
  {
    hide ProgramBuilder.Valid, Blocks, SocketOptionCalls, InspectCalls, AfterClearCalls, EndCalls;
    EmitInspect(b);
    NextBlock(fds, ipv6, 11);
    EmitSocketOption(b, SETSOCKOPT);
    NextBlock(fds, ipv6, 12);
    EmitAfterClear(b);
    NextBlock(fds, ipv6, 13);
    EmitSocketOption(b, SETSOCKOPT);
    NextBlock(fds, ipv6, 14);
    EmitEnd(b);
    NextBlock(fds, ipv6, 15);
  }

  /** The generator emits the program whose decisions are proved below. */
  method DestinationMarkProgram(fds: Fds, ipv6: bool) returns (code: seq<Insn>)
    ensures Assemblable(DestinationSource(fds, ipv6))
    ensures code == Assemble(DestinationSource(fds, ipv6))
  {
    DestinationShape(fds, ipv6);
    var b := new ProgramBuilder();
    EmitPolicy(b, fds, ipv6);
    EmitMarking(b, fds, ipv6);
    NoBlocks(fds, ipv6);
    code := b.Finish();
  }

  // ----- the socket program -----

  /** Writes the mark field of the new socket when the task is in the pid map. */
  function StampCalls(): (r: seq<Sym>)
    ensures |r| == 2
  {
    [JumpEq(0, 0, "allow"), StoreImm32(6, 16, FWMARK_VALUE)]
  }

  function SocketBlocks(pids: i32): (r: seq<seq<Sym>>)
    ensures |r| == 4
  {
    [TaskCalls(-4), LookupCalls(pids, -4), StampCalls(), EndCalls()]
  }

  function SocketSource(pids: i32): seq<Sym> {
    Join(SocketBlocks(pids))
  }

  function SocketHome(): map<string, nat> { map["allow" := 10] }

  lemma SocketStarts(pids: i32)
    ensures var blocks := SocketBlocks(pids);
            && |Join(blocks[..0])| == 0 && |Join(blocks[..1])| == 4 && |Join(blocks[..2])| == 8
            && |Join(blocks[..3])| == 10 && blocks[..4] == blocks && |Join(blocks)| == 13
  {
    hide TaskCalls, LookupCalls, StampCalls, EndCalls;
    var blocks := SocketBlocks(pids);
    assert blocks[..0] == [] && blocks[..4] == blocks;
    JoinNext(blocks, 0);
    JoinNext(blocks, 1);
    JoinNext(blocks, 2);
    JoinNext(blocks, 3);
  }

  lemma SocketLaid(pids: i32)
    ensures Laid(SocketSource(pids), 0, SocketHome())
  {
    var blocks := SocketBlocks(pids);
    SocketStarts(pids);
    PlainLaid(Fds(pids, 0, 0, 0), false, -4, pids, 0, 0, SocketHome());
    PlainLaid(Fds(pids, 0, 0, 0), false, -4, pids, 0, 4, SocketHome());
    assert Laid(StampCalls(), 8, SocketHome());
    assert Laid(EndCalls(), 10, SocketHome());
    LaidJoin(blocks, 4, SocketHome());
  }

  lemma SocketPlaced(pids: i32)
    ensures var src := SocketSource(pids);
            && |src| == 13 && At(src, 0, TaskCalls(-4)) && At(src, 4, LookupCalls(pids, -4))
            && At(src, 8, StampCalls()) && At(src, 10, EndCalls())
  {
    hide TaskCalls, LookupCalls, StampCalls, EndCalls;
    var blocks := SocketBlocks(pids);
    SocketStarts(pids);
    JoinAt(blocks, 4, 0);
    JoinAt(blocks, 4, 1);
    JoinAt(blocks, 4, 2);
    JoinAt(blocks, 4, 3);
  }

  lemma SocketShape(pids: i32)
    ensures Assemblable(SocketSource(pids)) && ForwardOnly(SocketSource(pids))
    ensures Find(SocketSource(pids), "allow") == 10
  {
    hide SocketSource, Laid, Assemblable, ForwardOnly;
    SocketPlaced(pids);
    SocketLaid(pids);
    AtIndex(SocketSource(pids), 10, EndCalls(), 0);
    HomedIsForward(SocketSource(pids), SocketHome());
  }

  method EmitStamp(b: ProgramBuilder)
    requires b.Valid()
    modifies b
    ensures b.Valid() && b.source == old(b.source) + StampCalls() && b.labels == old(b.labels)
  {
    hide ProgramBuilder.Valid, Sym.WellFormed, NewInsn;
    b.Jump(JumpEq(0, 0, "allow"));
    b.Emit(StoreImm32(6, 16, FWMARK_VALUE));
  }

  method SocketMarkProgram(pids: i32) returns (code: seq<Insn>)
    ensures Assemblable(SocketSource(pids))
    ensures code == Assemble(SocketSource(pids))
  {
    hide ProgramBuilder.Valid, TaskCalls, LookupCalls, StampCalls, EndCalls, TargetsDefined, OffsetsInRange;
    SocketShape(pids);
    SocketStarts(pids);
    ghost var blocks := SocketBlocks(pids);
    var b := new ProgramBuilder();
    EmitTask(b, -4);
    JoinNext(blocks, 0);
    EmitLookup(b, pids, -4);
    JoinNext(blocks, 1);
    EmitStamp(b);
    JoinNext(blocks, 2);
    EmitEnd(b);
    JoinNext(blocks, 3);
    code := b.Finish();
  }

  lemma RunStamp(env: Env, src: seq<Sym>, i: nat, m: Machine) returns (m': Machine)
    requires ForwardOnly(src) && Valid(m) && i < |src| && src[i] == StoreImm32(6, 16, FWMARK_VALUE)
    requires m.regs[6] == CtxPtr(0) && |m.ctx| >= 20
    ensures Valid(m') && m'.mark == m.mark
    ensures m'.ctx == m.ctx[..16] + ToLe(FWMARK_VALUE, 4) + m.ctx[20..]
    ensures Denote(env, src, i, m) == Denote(env, src, i + 1, m')
  {
    m' := m.(ctx := m.ctx[..16] + ToLe(FWMARK_VALUE, 4) + m.ctx[20..]);
  }

  /**
   At socket creation the mark field of the socket, bytes 16 to 20 of the
   context, becomes the bypass mark exactly when the task group is in the pid
   map; nothing else changes and the socket is always allowed (r0 = 1).
   */
  lemma SocketProgramMarks(env: Env, pids: i32, m: Machine) returns (m': Machine)
    requires HasMap(env, pids, 4) && Valid(m) && m.regs[1] == CtxPtr(0) && |m.ctx| >= 20
    ensures Assemblable(SocketSource(pids))
    ensures var code := Assemble(SocketSource(pids));
            Run(env, code, 0, m, |code|) == Exited(Num(1), m')
    ensures m'.mark == m.mark
    ensures m'.ctx
         == if Hit(env, pids, TaskKey(env))
            then m.ctx[..16] + ToLe(FWMARK_VALUE, 4) + m.ctx[20..] else m.ctx
  {
    hide Denote, At, NewInsn, ToLe, FromLe, TaskKey, Hit, Lookup, SocketSource, TaskCalls, LookupCalls,
         EndCalls;
    var src := SocketSource(pids);
    SocketShape(pids);
    SocketPlaced(pids);
    ForwardProgramsHalt(env, src, m);
    var m1 := RunFindTask(env, src, 0, pids, -4, m);
    AtIndex(src, 8, StampCalls(), 0);
    AtIndex(src, 8, StampCalls(), 1);
    RunJumpEq(env, src, 8, m1, 0, 0, "allow");
    if Hit(env, pids, TaskKey(env)) {
      var m2 := RunStamp(env, src, 9, m1);
      m' := RunEnd(env, src, 10, m2);
    } else {
      m' := RunEnd(env, src, 10, m1);
    }
  }

  // ----- many hooks on one socket -----

  /** One connect or sendmsg: the environment it runs in, its context, its address family. */
  datatype Hook = Hook(env: Env, ctx: seq<byte>, ipv6: bool)

  ghost predicate HookMaps(h: Hook, fds: Fds) {
    |h.ctx| >= 24 && Maps(h.env, fds, h.ipv6)
  }

  /** One run of the assembled program takes the mark of the socket from `before` to `after`. */
  ghost predicate RunsHook(h: Hook, fds: Fds, before: nat, after: nat) {
    && Assemblable(DestinationSource(fds, h.ipv6))
    && exists m: Machine, r: Machine :: HookRun(h, fds, m, r) && m.mark == before && r.mark == after
  }

  ghost predicate HookRun(h: Hook, fds: Fds, m: Machine, r: Machine)
    requires Assemblable(DestinationSource(fds, h.ipv6))
  {
    && AtEntry(m) && m.ctx == h.ctx
    && var code := Assemble(DestinationSource(fds, h.ipv6));
       Run(h.env, code, 0, m, |code|) == Exited(Num(1), r)
  }

  /** The program runs once for each hook, in order. */
  ghost predicate RunsHooks(hooks: seq<Hook>, fds: Fds, prior: nat, final: nat) {
    if hooks == [] then final == prior
    else
      var init, last := hooks[..|hooks| - 1], hooks[|hooks| - 1];
      exists mid: nat :: RunsHooks(init, fds, prior, mid) && RunsHook(last, fds, mid, final)
  }

  ghost predicate Bypassed(h: Hook, fds: Fds)
    requires HookMaps(h, fds)
  {
    Marks(h.env, fds, h.ctx, h.ipv6)
  }

  lemma HookDecides(h: Hook, fds: Fds, before: nat, after: nat)
    requires HookMaps(h, fds) && RunsHook(h, fds, before, after)
    ensures after == MarkAfter(h.env, before, Bypassed(h, fds))
    ensures HelpersWork(h.env) ==> after == FinalMark(before, Bypassed(h, fds))
  {
    hide Run, Assemblable, Maps, Marks, Assemble, DestinationSource;
    var m: Machine, r: Machine :| HookRun(h, fds, m, r) && m.mark == before && r.mark == after;
    var m' := DestinationProgramDecides(h.env, fds, h.ipv6, m);
  }

  /**
   Repeated sends on one socket: the mark tells the last decision and nothing
   else, and a foreign mark survives as long as no decision was to bypass.
   */
  lemma {:induction false} RepeatedHooks(hooks: seq<Hook>, fds: Fds, prior: nat, final: nat)
    requires hooks != [] && RunsHooks(hooks, fds, prior, final)
    requires forall i :: 0 <= i < |hooks| ==> HookMaps(hooks[i], fds) && HelpersWork(hooks[i].env)
    ensures final == FWMARK_VALUE <==> Bypassed(hooks[|hooks| - 1], fds)
    ensures prior != FWMARK_VALUE && (forall i :: 0 <= i < |hooks| ==> !Bypassed(hooks[i], fds)) ==>
              final == prior
  {
    hide RunsHook, HookMaps, Bypassed;
    var init, last := hooks[..|hooks| - 1], hooks[|hooks| - 1];
    var mid: nat :| RunsHooks(init, fds, prior, mid) && RunsHook(last, fds, mid, final);
    HookDecides(last, fds, mid, final);
    if init != [] {
      RepeatedHooks(init, fds, prior, mid);
    }
  }
}
