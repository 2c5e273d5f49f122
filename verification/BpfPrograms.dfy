/**
The two programs the code generator emits, and the proof that they decide the
mark of a socket as the user-level policy does.
*/
module BpfPrograms {
  import opened Bytes
  import opened BpfMachine
  import opened Wrappers
  import opened BpfAssembler

  // ----- builder calls -----

  function MovReg(dst: byte, src: byte): (s: Sym)
    ensures s.Op? && s.WellFormed()
  {
    Op(NewInsn(OP_MOV_REG, dst, src, 0, 0))
  }

  function MovImm(dst: byte, value: i32): (s: Sym)
    ensures s.Op? && s.WellFormed()
  {
    Op(NewInsn(OP_MOV_IMM, dst, 0, 0, value))
  }

  function RshImm(dst: byte, bits: i32): (s: Sym)
    ensures s.Op? && s.WellFormed()
  {
    Op(NewInsn(OP_RSH_IMM, dst, 0, 0, bits))
  }

  function AddImm(dst: byte, value: i32): (s: Sym)
    ensures s.Op? && s.WellFormed()
  {
    Op(NewInsn(OP_ADD_IMM, dst, 0, 0, value))
  }

  function Load32(dst: byte, src: byte, off: i16): (s: Sym)
    ensures s.Op? && s.WellFormed()
  {
    Op(NewInsn(OP_LOAD32, dst, src, off, 0))
  }

  function Load64(dst: byte, src: byte, off: i16): (s: Sym)
    ensures s.Op? && s.WellFormed()
  {
    Op(NewInsn(OP_LOAD64, dst, src, off, 0))
  }

  function StoreImm32(dst: byte, off: i16, value: i32): (s: Sym)
    ensures s.Op? && s.WellFormed()
  {
    Op(NewInsn(OP_STORE_IMM32, dst, 0, off, value))
  }

  function StoreReg32(dst: byte, off: i16, src: byte): (s: Sym)
    ensures s.Op? && s.WellFormed()
  {
    Op(NewInsn(OP_STORE_REG32, dst, src, off, 0))
  }

  function StoreReg64(dst: byte, off: i16, src: byte): (s: Sym)
    ensures s.Op? && s.WellFormed()
  {
    Op(NewInsn(OP_STORE_REG64, dst, src, off, 0))
  }

  function CallHelper(helper: i32): (s: Sym)
    ensures s.Op? && s.WellFormed()
  {
    Op(NewInsn(OP_CALL, 0, 0, 0, helper))
  }

  function JumpEq(reg: byte, value: i32, target: string): (s: Sym)
    ensures s.Branch? && s.WellFormed()
  {
    Branch(NewInsn(OP_JEQ, reg, 0, 0, value), target)
  }

  function JumpNe(reg: byte, value: i32, target: string): (s: Sym)
    ensures s.Branch? && s.WellFormed()
  {
    Branch(NewInsn(OP_JNE, reg, 0, 0, value), target)
  }

  function Jump(target: string): (s: Sym)
    ensures s.Branch? && s.WellFormed()
  {
    Branch(NewInsn(OP_JA, 0, 0, 0, 0), target)
  }

  function Exit(): (s: Sym)
    ensures s.Op? && s.WellFormed()
  {
    Op(NewInsn(OP_EXIT, 0, 0, 0, 0))
  }

  function LookupCalls(fd: i32, off: i32): (r: seq<Sym>)
    ensures |r| == 4
  {
    [MapLoad(1, fd), MovReg(2, 10), AddImm(2, off), CallHelper(MAP_LOOKUP_ELEM)]
  }

  function SocketOptionCalls(helper: i32): (r: seq<Sym>)
    ensures |r| == 7
  {
    [MovReg(1, 6), MovImm(2, SOL_SOCKET), MovImm(3, SO_MARK), MovReg(4, 10), AddImm(4, -28),
     MovImm(5, 4), CallHelper(helper)]
  }

  // ----- straight-line macros -----

  /** `block` is the source text at position `i`. */
  ghost predicate At(src: seq<Sym>, i: nat, block: seq<Sym>) {
    i + |block| <= |src| && src[i..i + |block|] == block
  }

  lemma AtIndex(src: seq<Sym>, i: nat, block: seq<Sym>, k: nat)
    requires At(src, i, block) && k < |block|
    ensures i + k < |src| && src[i + k] == block[k]
  {
    assert src[i..i + |block|][k] == block[k];
  }

  ghost predicate HasMap(env: Env, fd: int, keySize: nat) {
    fd in env.maps && env.maps[fd].keySize == keySize
  }

  /** What a lookup leaves in r0: a pointer to the value, or null. */
  ghost function LookupResult(m: KernelMap, key: seq<byte>): Value {
    match Lookup(m, key)
    case Some(v) => MapValue(v)
    case None => Num(0)
  }

  // ----- single instructions -----

  lemma RunLabel(env: Env, src: seq<Sym>, i: nat, m: Machine)
    requires ForwardOnly(src) && Valid(m) && i < |src| && src[i].Label?
    ensures Denote(env, src, i, m) == Denote(env, src, i + 1, m)
  {
  }

  lemma RunJump(env: Env, src: seq<Sym>, i: nat, m: Machine, target: string)
    requires ForwardOnly(src) && Valid(m) && i < |src| && src[i] == Jump(target)
    ensures Denote(env, src, i, m) == Denote(env, src, Find(src, target), m)
  {
  }

  lemma RunJumpEq(env: Env, src: seq<Sym>, i: nat, m: Machine, reg: byte, value: i32, target: string)
    requires ForwardOnly(src) && Valid(m) && i < |src| && src[i] == JumpEq(reg, value, target)
    requires reg < 10 && (m.regs[reg].Num? || (m.regs[reg].MapValue? && value == 0))
    ensures Denote(env, src, i, m)
         == Denote(env, src, if m.regs[reg] == Num(SignExtend(value)) then Find(src, target) else i + 1, m)
  {
  }

  lemma RunMovImm(env: Env, src: seq<Sym>, i: nat, m: Machine, dst: byte, value: i32)
    requires ForwardOnly(src) && Valid(m) && i < |src| && src[i] == MovImm(dst, value) && dst < 10
    ensures Denote(env, src, i, m)
         == Denote(env, src, i + 1, m.(regs := m.regs[dst := Num(SignExtend(value))]))
  {
  }

  lemma RunMovReg(env: Env, src: seq<Sym>, i: nat, m: Machine, dst: byte, from: byte)
    requires ForwardOnly(src) && Valid(m) && i < |src| && src[i] == MovReg(dst, from)
    requires dst < 10 && from <= 10 && m.regs[from] != Uninit
    ensures Denote(env, src, i, m) == Denote(env, src, i + 1, m.(regs := m.regs[dst := m.regs[from]]))
  {
  }

  lemma RunLookup(env: Env, src: seq<Sym>, i: nat, m: Machine, fd: i32, off: i32, keySize: nat)
    requires ForwardOnly(src) && Valid(m) && At(src, i, LookupCalls(fd, off))
    requires HasMap(env, fd, keySize) && StackReadable(m.stack, off, keySize)
    ensures Denote(env, src, i, m)
         == Denote(env, src, i + 4,
                   Clobber(m, LookupResult(env.maps[fd], ReadStack(m.stack, off, keySize))))
  {
    hide ShiftRight, ToLe, FromLe;
    AtIndex(src, i, LookupCalls(fd, off), 0);
    AtIndex(src, i, LookupCalls(fd, off), 1);
    AtIndex(src, i, LookupCalls(fd, off), 2);
    AtIndex(src, i, LookupCalls(fd, off), 3);
    var m1 := m.(regs := m.regs[1 := MapRef(fd)]);
    var m2 := m1.(regs := m1.regs[2 := StackPtr(0)]);
    var m3 := m2.(regs := m2.regs[2 := StackPtr(off)]);
    var m4 := Clobber(m, LookupResult(env.maps[fd], ReadStack(m.stack, off, keySize)));
    assert Denote(env, src, i, m) == Denote(env, src, i + 1, m1);
    assert Denote(env, src, i + 1, m1) == Denote(env, src, i + 2, m2);
    assert Denote(env, src, i + 2, m2) == Denote(env, src, i + 3, m3);
    assert m3.regs[6..] == m.regs[6..];
    assert After(env, src, i + 3, m3) == (i + 4, Next(m4));
  }

  lemma ReadBack(stack: map<int, byte>, off: int, bs: seq<byte>)
    requires -512 <= off && off + |bs| <= 0
    ensures StackReadable(WriteStack(stack, off, bs), off, |bs|)
    ensures ReadStack(WriteStack(stack, off, bs), off, |bs|) == bs
  {
    WriteStackAt(stack, off, bs);
  }

  lemma ReadOther(stack: map<int, byte>, off: int, bs: seq<byte>, at: int, size: nat)
    requires StackReadable(stack, at, size) && (at + size <= off || off + |bs| <= at)
    ensures StackReadable(WriteStack(stack, off, bs), at, size)
    ensures ReadStack(WriteStack(stack, off, bs), at, size) == ReadStack(stack, at, size)
  {
    WriteStackAt(stack, off, bs);
  }

  /** Adjacent stores are one store. */
  lemma WriteJoined(stack: map<int, byte>, off: int, a: seq<byte>, b: seq<byte>)
    ensures WriteStack(WriteStack(stack, off, a), off + |a|, b) == WriteStack(stack, off, a + b)
  {
    WriteStackAt(stack, off, a);
    WriteStackAt(WriteStack(stack, off, a), off + |a|, b);
    WriteStackAt(stack, off, a + b);
    var l, r := WriteStack(WriteStack(stack, off, a), off + |a|, b), WriteStack(stack, off, a + b);
    assert forall i :: i in l <==> i in r;
    assert forall i :: i in l ==> l[i] == r[i];
    assert l == r;
  }

  lemma RunSocketOption(env: Env, src: seq<Sym>, i: nat, m: Machine, helper: i32) returns (m': Machine)
    requires ForwardOnly(src) && Valid(m) && At(src, i, SocketOptionCalls(helper))
    requires m.regs[6] == CtxPtr(0)
    requires helper == GETSOCKOPT || (helper == SETSOCKOPT && StackReadable(m.stack, -28, 4))
    ensures Valid(m') && m'.regs[6..] == m.regs[6..] && m'.ctx == m.ctx
    ensures Denote(env, src, i, m) == Denote(env, src, i + 7, m')
    ensures helper == GETSOCKOPT ==>
              && m'.mark == m.mark && StackReadable(m'.stack, -28, 4)
              && ReadStack(m'.stack, -28, 4) == ToLe(MarkRead(env, m.mark), 4)
    ensures helper == SETSOCKOPT ==>
              m'.mark == if env.unset then m.mark else FromLe(ReadStack(m.stack, -28, 4))
  {
    hide Denote, At, NewInsn, ShiftRight, ToLe, FromLe;
    var block := SocketOptionCalls(helper);
    AtIndex(src, i, block, 0);
    AtIndex(src, i, block, 1);
    AtIndex(src, i, block, 2);
    AtIndex(src, i, block, 3);
    var m1 := m.(regs := m.regs[1 := CtxPtr(0)]);
    var m2 := m1.(regs := m1.regs[2 := Num(SOL_SOCKET)]);
    var m3 := m2.(regs := m2.regs[3 := Num(SO_MARK)]);
    var m4 := m3.(regs := m3.regs[4 := StackPtr(0)]);
    RunMovReg(env, src, i, m, 1, 6);
    RunMovImm(env, src, i + 1, m1, 2, SOL_SOCKET);
    RunMovImm(env, src, i + 2, m2, 3, SO_MARK);
    RunMovReg(env, src, i + 3, m3, 4, 10);
    m' := RunSocketOptionTail(env, src, i, m4, helper);
  }

  lemma RunSocketOptionTail(env: Env, src: seq<Sym>, i: nat, m: Machine, helper: i32) returns (m': Machine)
    requires ForwardOnly(src) && Valid(m) && At(src, i, SocketOptionCalls(helper))
    requires m.regs[1..5] == [CtxPtr(0), Num(SOL_SOCKET), Num(SO_MARK), StackPtr(0)]
    requires helper == GETSOCKOPT || (helper == SETSOCKOPT && StackReadable(m.stack, -28, 4))
    ensures Valid(m') && m'.regs[6..] == m.regs[6..] && m'.ctx == m.ctx
    ensures Denote(env, src, i + 4, m) == Denote(env, src, i + 7, m')
    ensures helper == GETSOCKOPT ==>
              && m'.mark == m.mark && StackReadable(m'.stack, -28, 4)
              && ReadStack(m'.stack, -28, 4) == ToLe(MarkRead(env, m.mark), 4)
    ensures helper == SETSOCKOPT ==>
              m'.mark == if env.unset then m.mark else FromLe(ReadStack(m.stack, -28, 4))
  {
    hide ShiftRight, ToLe, FromLe;
    var block := SocketOptionCalls(helper);
    AtIndex(src, i, block, 4);
    AtIndex(src, i, block, 5);
    AtIndex(src, i, block, 6);
    assert m.regs[1] == m.regs[1..5][0] && m.regs[2] == m.regs[1..5][1];
    assert m.regs[3] == m.regs[1..5][2] && m.regs[4] == m.regs[1..5][3];
    var m1 := m.(regs := m.regs[4 := StackPtr(-28)]);
    var m2 := m1.(regs := m1.regs[5 := Num(4)]);
    assert Denote(env, src, i + 4, m) == Denote(env, src, i + 5, m1);
    assert Denote(env, src, i + 5, m1) == Denote(env, src, i + 6, m2);
    assert SocketOptionArgs(m2);
    ReadBack(m.stack, -28, ToLe(MarkRead(env, m.mark), 4));
    m' := Call(env, m2, helper).m;
    assert After(env, src, i + 6, m2) == (i + 7, Next(m'));
    assert m'.regs[6..] == m2.regs[6..] == m.regs[6..];
    assert m'.regs[10] == m'.regs[6..][4];
  }

  // ----- the source of the destination program -----

  /** Saves the context and stores the current task group as a map key. */
  function TaskCalls(off: i16): (r: seq<Sym>)
    ensures |r| == 4
  {
    [MovReg(6, 1), CallHelper(GET_CURRENT_PID_TGID), RshImm(0, 32), StoreReg32(10, off, 0)]
  }

  function BaselineCalls(): (r: seq<Sym>)
    ensures |r| == 6
  {
    [MovImm(8, 0), JumpEq(0, 0, "application_baseline"), MovImm(8, FWMARK_VALUE),
     Label("application_baseline"), CallHelper(GET_CURRENT_UID_GID), StoreReg32(10, -32, 0)]
  }

  /** Builds the trie key of the caller and the destination on the stack. */
  function KeyCalls(ipv6: bool): (r: seq<Sym>)
    ensures |r| == KeyLength(ipv6)
  {
    if ipv6 then
      [StoreImm32(10, -24, 160), Load32(0, 10, -32), StoreReg32(10, -20, 0),
       Load64(0, 6, 8), StoreReg64(10, -16, 0), Load64(0, 6, 16), StoreReg64(10, -8, 0)]
    else
      [StoreImm32(10, -16, 64), Load32(0, 10, -32), StoreReg32(10, -12, 0),
       Load32(0, 6, 4), StoreReg32(10, -8, 0)]
  }

  function KeyOffset(ipv6: bool): i16 { if ipv6 then -24 else -16 }
  function KeySize(ipv6: bool): nat { if ipv6 then 24 else 12 }

  function BypassCalls(): (r: seq<Sym>)
    ensures |r| == 3
  {
    [JumpEq(0, 0, "split_policy"), Jump("exclude_destination"), Label("split_policy")]
  }

  function ModeCalls(): (r: seq<Sym>)
    ensures |r| == 2
  {
    [JumpEq(0, 0, "mark_socket"), Load32(7, 0, 0)]
  }

  function DecideCalls(): (r: seq<Sym>)
    ensures |r| == 8
  {
    [JumpEq(0, 0, "mark_socket"), JumpEq(7, 0, "exclude_destination"), MovImm(8, 0),
     Jump("mark_socket"), Label("exclude_destination"), MovImm(8, FWMARK_VALUE),
     Label("mark_socket"), JumpEq(8, FWMARK_VALUE, "set_mark")]
  }

  function InspectCalls(): (r: seq<Sym>)
    ensures |r| == 3
  {
    [Load32(0, 10, -28), JumpNe(0, FWMARK_VALUE, "allow"), StoreImm32(10, -28, 0)]
  }

  function AfterClearCalls(): (r: seq<Sym>)
    ensures |r| == 3
  {
    [Jump("allow"), Label("set_mark"), StoreImm32(10, -28, FWMARK_VALUE)]
  }

  function EndCalls(): (r: seq<Sym>)
    ensures |r| == 3
  {
    [Label("allow"), MovImm(0, 1), Exit()]
  }

  datatype Fds = Fds(pids: i32, modes: i32, ranges: i32, bypass: i32)

  /** The blocks of the destination program, in order. */
  function BlockNo(fds: Fds, ipv6: bool, b: nat): seq<Sym>
    requires b < 16
  {
    if b == 0 then TaskCalls(-36)
    else if b == 1 then LookupCalls(fds.pids, -36)
    else if b == 2 then BaselineCalls()
    else if b == 3 then KeyCalls(ipv6)
    else if b == 4 then LookupCalls(fds.bypass, KeyOffset(ipv6))
    else if b == 5 then BypassCalls()
    else if b == 6 then LookupCalls(fds.modes, -32)
    else if b == 7 then ModeCalls()
    else if b == 8 then LookupCalls(fds.ranges, KeyOffset(ipv6))
    else if b == 9 then DecideCalls()
    else if b == 10 then SocketOptionCalls(GETSOCKOPT)
    else if b == 11 then InspectCalls()
    else if b == 12 then SocketOptionCalls(SETSOCKOPT)
    else if b == 13 then AfterClearCalls()
    else if b == 14 then SocketOptionCalls(SETSOCKOPT)
    else EndCalls()
  }

  function DestinationBlocks(fds: Fds, ipv6: bool): (r: seq<seq<Sym>>)
    ensures |r| == 16
  {
    seq(16, (b: nat) requires b < 16 => BlockNo(fds, ipv6, b))
  }

  function Join(blocks: seq<seq<Sym>>): seq<Sym> {
    if blocks == [] then [] else Join(blocks[..|blocks| - 1]) + blocks[|blocks| - 1]
  }

  function DestinationSource(fds: Fds, ipv6: bool): seq<Sym> {
    Join(DestinationBlocks(fds, ipv6))
  }

  // ----- where the blocks and labels lie -----

  lemma {:induction false} JoinAt(blocks: seq<seq<Sym>>, n: nat, b: nat)
    requires b < n <= |blocks|
    ensures At(Join(blocks[..n]), |Join(blocks[..b])|, blocks[b])
    ensures |Join(blocks[..b + 1])| == |Join(blocks[..b])| + |blocks[b]|
    decreases n
  {
    assert blocks[..n][..n - 1] == blocks[..n - 1];
    assert blocks[..b + 1][..b] == blocks[..b];
    if b < n - 1 {
      JoinAt(blocks, n - 1, b);
      var init, a := Join(blocks[..n - 1]), |Join(blocks[..b])|;
      assert Join(blocks[..n]) == init + blocks[n - 1];
      assert Join(blocks[..n])[a..a + |blocks[b]|] == init[a..a + |blocks[b]|];
    }
  }

  /** Each label of a block stands at its home, each jump goes to a later home. */
  ghost predicate Laid(block: seq<Sym>, at: nat, home: map<string, nat>) {
    forall k :: 0 <= k < |block| ==>
      && block[k].WellFormed()
      && (block[k].Label? ==> block[k].name in home && home[block[k].name] == at + k)
      && (block[k].Branch? ==> block[k].target in home && at + k < home[block[k].target])
  }

  lemma {:induction false} LaidJoin(blocks: seq<seq<Sym>>, n: nat, home: map<string, nat>)
    requires n <= |blocks|
    requires forall b :: 0 <= b < n ==> Laid(blocks[b], |Join(blocks[..b])|, home)
    ensures Laid(Join(blocks[..n]), 0, home)
    decreases n
  {
    if n > 0 {
      LaidJoin(blocks, n - 1, home);
      assert blocks[..n][..n - 1] == blocks[..n - 1];
      var init := Join(blocks[..n - 1]);
      assert Laid(blocks[n - 1], |init|, home);
      var all := Join(blocks[..n]);
      assert all == init + blocks[n - 1];
      forall k | 0 <= k < |all|
        ensures all[k] == if k < |init| then init[k] else blocks[n - 1][k - |init|]
      {
      }
    }
  }

  ghost predicate Homed(src: seq<Sym>, home: map<string, nat>) {
    && Laid(src, 0, home)
    && forall name :: name in home ==> home[name] < |src| && src[home[name]] == Label(name)
  }

  lemma HomedIsForward(src: seq<Sym>, home: map<string, nat>)
    requires Homed(src, home) && |src| <= 100
    ensures Assemblable(src) && ForwardOnly(src)
    ensures forall name :: name in home ==> Find(src, name) == home[name]
  {
    forall name | name in home
      ensures Find(src, name) == home[name] && Defined(src, name)
    {
      assert src[home[name]] == Label(name);
    }
    AddrAtMost(src, |src|);
    forall i | 0 <= i < |src| && src[i].Branch?
      ensures -0x8000 <= Offset(src, i) < 0x8000
    {
      AddrMonotone(src, i, |src|);
      AddrMonotone(src, Find(src, src[i].target), |src|);
    }
  }

  lemma {:induction false} AddrAtMost(src: seq<Sym>, i: nat)
    requires i <= |src|
    ensures Addr(src, i) <= 2 * i
  {
    if i > 0 {
      AddrAtMost(src, i - 1);
    }
  }

  function KeyLength(ipv6: bool): nat { if ipv6 then 7 else 5 }

  /** The position of each block of the destination program. */
  function Start(ipv6: bool, b: nat): nat
    requires b <= 16
  {
    if b == 0 then 0 else if b == 1 then 4 else if b == 2 then 8 else if b == 3 then 14
    else
      KeyLength(ipv6) +
      (if b == 4 then 14 else if b == 5 then 18 else if b == 6 then 21 else if b == 7 then 25 else 
       if b == 8 then 27 else if b == 9 then 31 else if b == 10 then 39 else if b == 11 then 46 else 
       if b == 12 then 49 else if b == 13 then 56 else if b == 14 then 59 else if b == 15 then 66 else 
       69)
  }

  function Home(ipv6: bool): map<string, nat> {
    var k := KeyLength(ipv6);
    map["application_baseline" := 11, "split_policy" := 20 + k, "exclude_destination" := 35 + k,
        "mark_socket" := 37 + k, "set_mark" := 57 + k, "allow" := 66 + k]
  }

  lemma EarlyBlockLength(fds: Fds, ipv6: bool, b: nat)
    requires b < 8
    ensures Start(ipv6, b + 1) == Start(ipv6, b) + |BlockNo(fds, ipv6, b)|
  {
  }

  lemma LateBlockLength(fds: Fds, ipv6: bool, b: nat)
    requires 8 <= b < 16
    ensures Start(ipv6, b + 1) == Start(ipv6, b) + |BlockNo(fds, ipv6, b)|
  {
  }

  lemma BlockLength(fds: Fds, ipv6: bool, b: nat)
    requires b < 16
    ensures Start(ipv6, b + 1) == Start(ipv6, b) + |BlockNo(fds, ipv6, b)|
  {
    hide BlockNo, Start;
    if b < 8 {
      EarlyBlockLength(fds, ipv6, b);
    } else {
      LateBlockLength(fds, ipv6, b);
    }
  }

  lemma {:induction false} Starts(fds: Fds, ipv6: bool, b: nat)
    requires b <= 16
    ensures |Join(DestinationBlocks(fds, ipv6)[..b])| == Start(ipv6, b)
  {
    hide BlockNo, DestinationBlocks, Join;
    var blocks := DestinationBlocks(fds, ipv6);
    if b == 0 {
      JoinNone(blocks);
    } else {
      Starts(fds, ipv6, b - 1);
      BlockLength(fds, ipv6, b - 1);
      BlockIs(fds, ipv6, b - 1);
      JoinAt(blocks, b, b - 1);
    }
  }

  lemma JoinNone(blocks: seq<seq<Sym>>)
    ensures Join(blocks[..0]) == []
  {
  }

  lemma BlockIs(fds: Fds, ipv6: bool, b: nat)
    requires b < 16
    ensures |DestinationBlocks(fds, ipv6)| == 16 && DestinationBlocks(fds, ipv6)[b] == BlockNo(fds, ipv6, b)
  {
    hide BlockNo;
  }

  /** Straight-line blocks fit anywhere. */
  lemma PlainLaid(fds: Fds, ipv6: bool, off: i16, fd: i32, helper: i32, at: nat, home: map<string, nat>)
    ensures Laid(TaskCalls(off), at, home) && Laid(LookupCalls(fd, off), at, home)
    ensures Laid(SocketOptionCalls(helper), at, home)
    ensures Laid(KeyCalls(ipv6), at, home)
  {
  }

  lemma BaselineLaid(ipv6: bool)
    ensures Laid(BaselineCalls(), Start(ipv6, 2), Home(ipv6))
  {
  }

  lemma PolicyLaid(ipv6: bool)
    ensures Laid(BypassCalls(), Start(ipv6, 5), Home(ipv6))
    ensures Laid(ModeCalls(), Start(ipv6, 7), Home(ipv6))
  {
  }

  lemma DecideLaid(ipv6: bool)
    ensures Laid(DecideCalls(), Start(ipv6, 9), Home(ipv6))
  {
  }

  lemma MarkLaid(ipv6: bool)
    ensures Laid(InspectCalls(), Start(ipv6, 11), Home(ipv6))
    ensures Laid(AfterClearCalls(), Start(ipv6, 13), Home(ipv6))
    ensures Laid(EndCalls(), Start(ipv6, 15), Home(ipv6))
  {
  }

  lemma BlockLaid(fds: Fds, ipv6: bool, b: nat)
    requires b < 16
    ensures Laid(BlockNo(fds, ipv6, b), Start(ipv6, b), Home(ipv6))
  {
    hide Laid;
    var at, home := Start(ipv6, b), Home(ipv6);
    PlainLaid(fds, ipv6, -36, fds.pids, GETSOCKOPT, at, home);
    PlainLaid(fds, ipv6, KeyOffset(ipv6), fds.bypass, SETSOCKOPT, at, home);
    PlainLaid(fds, ipv6, -32, fds.modes, SETSOCKOPT, at, home);
    PlainLaid(fds, ipv6, KeyOffset(ipv6), fds.ranges, SETSOCKOPT, at, home);
    BaselineLaid(ipv6);
    PolicyLaid(ipv6);
    DecideLaid(ipv6);
    MarkLaid(ipv6);
  }

  lemma DestinationLaid(fds: Fds, ipv6: bool)
    ensures Laid(DestinationSource(fds, ipv6), 0, Home(ipv6))
    ensures |DestinationSource(fds, ipv6)| == Start(ipv6, 16)
  {
    var blocks := DestinationBlocks(fds, ipv6);
    forall b | 0 <= b < 16
      ensures Laid(blocks[b], |Join(blocks[..b])|, Home(ipv6))
    {
      Starts(fds, ipv6, b);
      BlockLaid(fds, ipv6, b);
    }
    assert blocks[..16] == blocks;
    LaidJoin(blocks, 16, Home(ipv6));
    Starts(fds, ipv6, 16);
  }

  lemma LabelsAtHome(fds: Fds, ipv6: bool)
    ensures var src, home := DestinationSource(fds, ipv6), Home(ipv6);
            forall name :: name in home ==> home[name] < |src| && src[home[name]] == Label(name)
  {
    hide DestinationSource, BlockNo;
    EarlyLabels(fds, ipv6);
    LateLabels(fds, ipv6);
  }

  lemma EarlyLabels(fds: Fds, ipv6: bool)
    ensures LabelAt(fds, ipv6, "application_baseline") && LabelAt(fds, ipv6, "split_policy")
    ensures LabelAt(fds, ipv6, "exclude_destination")
  {
    hide DestinationSource, NewInsn, At;
    Block(fds, ipv6, 2, 3);
    Block(fds, ipv6, 5, 2);
    Block(fds, ipv6, 9, 4);
  }

  lemma LateLabels(fds: Fds, ipv6: bool)
    ensures LabelAt(fds, ipv6, "mark_socket") && LabelAt(fds, ipv6, "set_mark") && LabelAt(fds, ipv6, "allow")
  {
    hide DestinationSource, NewInsn, At;
    Block(fds, ipv6, 9, 6);
    Block(fds, ipv6, 13, 1);
    Block(fds, ipv6, 15, 0);
  }

  ghost predicate LabelAt(fds: Fds, ipv6: bool, name: string) {
    var src, home := DestinationSource(fds, ipv6), Home(ipv6);
    name in home && home[name] < |src| && src[home[name]] == Label(name)
  }

  /** The destination program is one the assembler accepts, and all its jumps go forward. */
  lemma DestinationShape(fds: Fds, ipv6: bool)
    ensures Assemblable(DestinationSource(fds, ipv6)) && ForwardOnly(DestinationSource(fds, ipv6))
    ensures forall name :: name in Home(ipv6) ==>
              Find(DestinationSource(fds, ipv6), name) == Home(ipv6)[name]
  {
    hide DestinationSource, Laid, Home, Assemblable, ForwardOnly;
    DestinationLaid(fds, ipv6);
    LabelsAtHome(fds, ipv6);
    HomedIsForward(DestinationSource(fds, ipv6), Home(ipv6));
  }

  /** The source text at the start of each block is that block. */
  lemma Block(fds: Fds, ipv6: bool, b: nat, k: nat)
    requires b < 16 && k < |BlockNo(fds, ipv6, b)|
    ensures At(DestinationSource(fds, ipv6), Start(ipv6, b), BlockNo(fds, ipv6, b))
    ensures Start(ipv6, b) + k < |DestinationSource(fds, ipv6)|
    ensures DestinationSource(fds, ipv6)[Start(ipv6, b) + k] == BlockNo(fds, ipv6, b)[k]
  {
    hide BlockNo, DestinationBlocks, Join, Start, At;
    var blocks := DestinationBlocks(fds, ipv6);
    BlockIs(fds, ipv6, b);
    assert blocks[..16] == blocks;
    JoinAt(blocks, 16, b);
    Starts(fds, ipv6, b);
    AtIndex(DestinationSource(fds, ipv6), Start(ipv6, b), blocks[b], k);
  }

  // ----- the policy -----

  /** The pid-map key of the running task: its thread group. */
  function TaskKey(env: Env): seq<byte> {
    ToLe(ShiftRight(env.pidTgid, 32), 4)
  }

  function UidKey(env: Env): seq<byte> {
    ToLe(env.uidGid, 4)
  }

  /** The trie key of the caller and the full destination address in the context. */
  function DestinationKey(env: Env, ctx: seq<byte>, ipv6: bool): (key: seq<byte>)
    requires |ctx| >= 24
    ensures |key| == KeySize(ipv6)
  {
    ToLe(if ipv6 then 160 else 64, 4) + UidKey(env) + if ipv6 then ctx[8..24] else ctx[4..8]
  }

  /** The maps a destination program reads exist, and modes are 32-bit values. */
  ghost predicate Maps(env: Env, fds: Fds, ipv6: bool) {
    && HasMap(env, fds.pids, 4) && HasMap(env, fds.modes, 4)
    && HasMap(env, fds.ranges, KeySize(ipv6)) && HasMap(env, fds.bypass, KeySize(ipv6))
    && env.maps[fds.modes].HashMap?
    && forall k :: k in env.maps[fds.modes].entries ==> |env.maps[fds.modes].entries[k]| == 4
  }

  ghost predicate Hit(env: Env, fd: int, key: seq<byte>)
    requires fd in env.maps
  {
    Lookup(env.maps[fd], key).Some?
  }

  /** The uid has a mode and one of its ranges contains the destination. */
  ghost predicate RangeApplies(env: Env, fds: Fds, ctx: seq<byte>, ipv6: bool)
    requires Maps(env, fds, ipv6) && |ctx| >= 24
  {
    Hit(env, fds.modes, UidKey(env)) && Hit(env, fds.ranges, DestinationKey(env, ctx, ipv6))
  }

  /** Whether the socket is to carry the bypass mark. */
  ghost predicate Marks(env: Env, fds: Fds, ctx: seq<byte>, ipv6: bool)
    requires Maps(env, fds, ipv6) && |ctx| >= 24
  {
    if Hit(env, fds.bypass, DestinationKey(env, ctx, ipv6)) then true
    else if RangeApplies(env, fds, ctx, ipv6)
    then FromLe(Lookup(env.maps[fds.modes], UidKey(env)).value) == 0   // Exclude is mode 0
    else Hit(env, fds.pids, TaskKey(env))
  }

  /** A decision replaces the mark; no decision clears our own mark and keeps a foreign one. */
  function FinalMark(prior: nat, marks: bool): nat {
    if marks then FWMARK_VALUE else if prior == FWMARK_VALUE then 0 else prior
  }

  /** The mark a program leaves when the socket-option helpers may fail. */
  function MarkAfter(env: Env, prior: nat, marks: bool): nat {
    if env.unset then prior
    else if marks then FWMARK_VALUE
    else if MarkRead(env, prior) == FWMARK_VALUE then 0 else prior
  }

  predicate HelpersWork(env: Env) { env.unread.None? && !env.unset }

  /**
   The decision gets its mark exactly when every helper it depends on works: to
   mark, the write, unless our mark is there already; to clear our own mark,
   the write, and a read that finds it; to keep a foreign mark, a read that
   does not find ours in its place, unless nothing can be written or the mark
   is zero anyway.
   */
  lemma HelpersDecide(env: Env, prior: nat, marks: bool)
    ensures MarkAfter(env, prior, marks) == FinalMark(prior, marks) <==>
              if marks then !env.unset || prior == FWMARK_VALUE
              else if prior == FWMARK_VALUE then !env.unset && env.unread in {None, Some(FWMARK_VALUE as Word)}
              else env.unset || prior == 0 || env.unread != Some(FWMARK_VALUE as Word)
    ensures HelpersWork(env) ==> MarkAfter(env, prior, marks) == FinalMark(prior, marks)
  {
  }

  // ----- single instructions on the stack -----

  lemma RunStoreReg32(env: Env, src: seq<Sym>, i: nat, m: Machine, off: i16, reg: byte)
    requires ForwardOnly(src) && Valid(m) && i < |src| && src[i] == StoreReg32(10, off, reg)
    requires reg < 10 && m.regs[reg].Num? && -512 <= off <= -4
    ensures Denote(env, src, i, m)
         == Denote(env, src, i + 1, m.(stack := WriteStack(m.stack, off, ToLe(m.regs[reg].n, 4))))
  {
  }

  lemma RunStoreReg64(env: Env, src: seq<Sym>, i: nat, m: Machine, off: i16, reg: byte)
    requires ForwardOnly(src) && Valid(m) && i < |src| && src[i] == StoreReg64(10, off, reg)
    requires reg < 10 && m.regs[reg].Num? && -512 <= off <= -8
    ensures Denote(env, src, i, m)
         == Denote(env, src, i + 1, m.(stack := WriteStack(m.stack, off, ToLe(m.regs[reg].n, 8))))
  {
  }

  lemma RunStoreImm32(env: Env, src: seq<Sym>, i: nat, m: Machine, off: i16, value: i32)
    requires ForwardOnly(src) && Valid(m) && i < |src| && src[i] == StoreImm32(10, off, value)
    requires -512 <= off <= -4 && value >= 0
    ensures Denote(env, src, i, m)
         == Denote(env, src, i + 1, m.(stack := WriteStack(m.stack, off, ToLe(value, 4))))
  {
  }

  /** A word copied from the context, or from the stack, to the stack keeps its bytes. */
  lemma RunCopy32(env: Env, src: seq<Sym>, i: nat, m: Machine, from: byte, at: i16, off: i16, bs: seq<byte>)
    returns (m': Machine)
    requires ForwardOnly(src) && Valid(m) && i + 1 < |src| && |bs| == 4 && -512 <= off <= -4
    requires src[i] == Load32(0, from, at) && src[i + 1] == StoreReg32(10, off, 0)
    requires || (from == 6 && m.regs[6] == CtxPtr(0) && 0 <= at && at + 4 <= |m.ctx| && m.ctx[at..at + 4] == bs)
             || (from == 10 && StackReadable(m.stack, at, 4) && ReadStack(m.stack, at, 4) == bs)
    ensures m' == m.(regs := m.regs[0 := Num(FromLe(bs))], stack := WriteStack(m.stack, off, bs))
    ensures Denote(env, src, i, m) == Denote(env, src, i + 2, m')
  {
    hide ShiftRight, ToLe, FromLe;
    var m1 := m.(regs := m.regs[0 := Num(FromLe(bs))]);
    assert Denote(env, src, i, m) == Denote(env, src, i + 1, m1);
    RunStoreReg32(env, src, i + 1, m1, off, 0);
    LeRoundTrip(bs);
    m' := m1.(stack := WriteStack(m.stack, off, bs));
  }

  lemma RunCopy64(env: Env, src: seq<Sym>, i: nat, m: Machine, at: i16, off: i16, bs: seq<byte>)
    returns (m': Machine)
    requires ForwardOnly(src) && Valid(m) && i + 1 < |src| && |bs| == 8 && -512 <= off <= -8
    requires src[i] == Load64(0, 6, at) && src[i + 1] == StoreReg64(10, off, 0)
    requires m.regs[6] == CtxPtr(0) && 0 <= at && at + 8 <= |m.ctx| && m.ctx[at..at + 8] == bs
    ensures m' == m.(regs := m.regs[0 := Num(FromLe(bs))], stack := WriteStack(m.stack, off, bs))
    ensures Denote(env, src, i, m) == Denote(env, src, i + 2, m')
  {
    hide ShiftRight, ToLe, FromLe;
    var m1 := m.(regs := m.regs[0 := Num(FromLe(bs))]);
    assert Denote(env, src, i, m) == Denote(env, src, i + 1, m1);
    RunStoreReg64(env, src, i + 1, m1, off, 0);
    LeRoundTrip(bs);
    m' := m1.(stack := WriteStack(m.stack, off, bs));
  }

  // ----- running the blocks -----

  /** What every block keeps: the saved context, and the socket untouched so far. */
  ghost predicate Kept(m0: Machine, m: Machine) {
    Valid(m) && m.regs[6] == CtxPtr(0) && m.ctx == m0.ctx && m.mark == m0.mark
  }

  ghost predicate LookedUp(v: Value) { v == Num(0) || v.MapValue? }

  /** A helper call that reports an id keeps the callee-saved registers and the memory. */
  lemma RunIdCall(env: Env, src: seq<Sym>, i: nat, m: Machine, helper: i32) returns (m': Machine)
    requires ForwardOnly(src) && Valid(m) && i < |src| && src[i] == CallHelper(helper)
    requires helper == GET_CURRENT_PID_TGID || helper == GET_CURRENT_UID_GID
    ensures Valid(m') && m'.stack == m.stack && m'.ctx == m.ctx && m'.mark == m.mark
    ensures m'.regs[0] == Num(if helper == GET_CURRENT_PID_TGID then env.pidTgid else env.uidGid)
    ensures m'.regs[6..] == m.regs[6..] && m'.regs[6] == m.regs[6] && m'.regs[8] == m.regs[8]
    ensures Denote(env, src, i, m) == Denote(env, src, i + 1, m')
  {
    hide ShiftRight, ToLe, FromLe;
    m' := Clobber(m, Num(if helper == GET_CURRENT_PID_TGID then env.pidTgid else env.uidGid));
    assert m'.regs[6..] == m.regs[6..];
    assert m'.regs[6] == m.regs[6..][0] && m'.regs[8] == m.regs[6..][2] && m'.regs[10] == m.regs[6..][4];
  }

  lemma RunTask(env: Env, src: seq<Sym>, i: nat, m: Machine, off: i16) returns (m': Machine)
    requires ForwardOnly(src) && Valid(m) && At(src, i, TaskCalls(off))
    requires m.regs[1] == CtxPtr(0) && -512 <= off <= -4
    ensures Kept(m, m')
    ensures StackReadable(m'.stack, off, 4) && ReadStack(m'.stack, off, 4) == TaskKey(env)
    ensures Denote(env, src, i, m) == Denote(env, src, i + 4, m')
  {
    hide Denote, At, NewInsn, TaskKey, ShiftRight, ToLe, FromLe;
    AtIndex(src, i, TaskCalls(off), 0);
    AtIndex(src, i, TaskCalls(off), 1);
    var m1 := m.(regs := m.regs[6 := CtxPtr(0)]);
    RunMovReg(env, src, i, m, 6, 1);
    var m2 := RunIdCall(env, src, i + 1, m1, GET_CURRENT_PID_TGID);
    m' := RunTaskKey(env, src, i, m2, off);
  }

  lemma RunTaskKey(env: Env, src: seq<Sym>, i: nat, m: Machine, off: i16) returns (m': Machine)
    requires ForwardOnly(src) && Valid(m) && At(src, i, TaskCalls(off))
    requires m.regs[0] == Num(env.pidTgid) && m.regs[6] == CtxPtr(0) && -512 <= off <= -4
    ensures Kept(m, m')
    ensures StackReadable(m'.stack, off, 4) && ReadStack(m'.stack, off, 4) == TaskKey(env)
    ensures Denote(env, src, i + 2, m) == Denote(env, src, i + 4, m')
  {
    hide ShiftRight, ToLe, FromLe;
    AtIndex(src, i, TaskCalls(off), 2);
    AtIndex(src, i, TaskCalls(off), 3);
    var m1 := m.(regs := m.regs[0 := Num(ShiftRight(env.pidTgid, 32))]);
    m' := m1.(stack := WriteStack(m.stack, off, TaskKey(env)));
    ReadBack(m.stack, off, TaskKey(env));
    assert Denote(env, src, i + 2, m) == Denote(env, src, i + 3, m1);
    RunStoreReg32(env, src, i + 3, m1, off, 0);
  }

  /** Looks up in a map, with what the caller of the macro needs afterwards. */
  lemma RunFind(env: Env, src: seq<Sym>, i: nat, m: Machine, fd: i32, off: i32, key: seq<byte>)
    returns (m': Machine)
    requires ForwardOnly(src) && Valid(m) && At(src, i, LookupCalls(fd, off))
    requires HasMap(env, fd, |key|) && StackReadable(m.stack, off, |key|)
    requires ReadStack(m.stack, off, |key|) == key
    ensures Valid(m') && m'.regs[6..] == m.regs[6..]
    ensures m'.stack == m.stack && m'.ctx == m.ctx && m'.mark == m.mark
    ensures m'.regs[0] == LookupResult(env.maps[fd], key)
    ensures LookedUp(m'.regs[0]) && (m'.regs[0] == Num(0) <==> !Hit(env, fd, key))
    ensures Denote(env, src, i, m) == Denote(env, src, i + 4, m')
  {
    hide ShiftRight, ToLe, FromLe;
    RunLookup(env, src, i, m, fd, off, |key|);
    m' := Clobber(m, LookupResult(env.maps[fd], key));
    assert m'.regs[6..] == m.regs[6..];
    assert m'.regs[10] == m.regs[6..][4];
  }

  /** r8 becomes the mark an application rule asks for; the uid goes to the stack. */
  lemma RunBaseline(env: Env, src: seq<Sym>, i: nat, m: Machine, hit: bool) returns (m': Machine)
    requires ForwardOnly(src) && Valid(m) && At(src, i, BaselineCalls())
    requires Find(src, "application_baseline") == i + 3
    requires m.regs[6] == CtxPtr(0) && LookedUp(m.regs[0]) && (m.regs[0] == Num(0) <==> !hit)
    ensures Kept(m, m') && m'.regs[8] == Num(if hit then FWMARK_VALUE else 0)
    ensures StackReadable(m'.stack, -32, 4) && ReadStack(m'.stack, -32, 4) == UidKey(env)
    ensures Denote(env, src, i, m) == Denote(env, src, i + 6, m')
  {
    hide Denote, At, NewInsn, UidKey, ShiftRight, ToLe, FromLe;
    AtIndex(src, i, BaselineCalls(), 0);
    AtIndex(src, i, BaselineCalls(), 1);
    AtIndex(src, i, BaselineCalls(), 2);
    AtIndex(src, i, BaselineCalls(), 3);
    RunMovImm(env, src, i, m, 8, 0);
    var m1 := m.(regs := m.regs[8 := Num(0)]);
    var m2 := if hit then m1.(regs := m1.regs[8 := Num(FWMARK_VALUE)]) else m1;
    RunJumpEq(env, src, i + 1, m1, 0, 0, "application_baseline");
    if hit {
      RunMovImm(env, src, i + 2, m1, 8, FWMARK_VALUE);
    }
    RunLabel(env, src, i + 3, m2);
    m' := RunUid(env, src, i, m2);
  }

  lemma RunUid(env: Env, src: seq<Sym>, i: nat, m: Machine) returns (m': Machine)
    requires ForwardOnly(src) && Valid(m) && At(src, i, BaselineCalls()) && m.regs[6] == CtxPtr(0)
    ensures Kept(m, m') && m'.regs[8] == m.regs[8]
    ensures StackReadable(m'.stack, -32, 4) && ReadStack(m'.stack, -32, 4) == UidKey(env)
    ensures Denote(env, src, i + 4, m) == Denote(env, src, i + 6, m')
  {
    hide ShiftRight, ToLe, FromLe;
    AtIndex(src, i, BaselineCalls(), 4);
    AtIndex(src, i, BaselineCalls(), 5);
    var m1 := RunIdCall(env, src, i + 4, m, GET_CURRENT_UID_GID);
    m' := m1.(stack := WriteStack(m1.stack, -32, UidKey(env)));
    ReadBack(m1.stack, -32, UidKey(env));
    RunStoreReg32(env, src, i + 5, m1, -32, 0);
  }

  lemma RunKey(env: Env, src: seq<Sym>, i: nat, m: Machine, ipv6: bool) returns (m': Machine)
    requires ForwardOnly(src) && Valid(m) && At(src, i, KeyCalls(ipv6))
    requires m.regs[6] == CtxPtr(0) && |m.ctx| >= 24
    requires StackReadable(m.stack, -32, 4) && ReadStack(m.stack, -32, 4) == UidKey(env)
    ensures Kept(m, m') && m'.regs[8] == m.regs[8]
    ensures m'.stack == WriteStack(m.stack, KeyOffset(ipv6), DestinationKey(env, m.ctx, ipv6))
    ensures Denote(env, src, i, m) == Denote(env, src, i + KeyLength(ipv6), m')
  {
    hide ShiftRight, ToLe, FromLe;
    var off, head := KeyOffset(ipv6), ToLe(if ipv6 then 160 else 64, 4);
    AtIndex(src, i, KeyCalls(ipv6), 0);
    AtIndex(src, i, KeyCalls(ipv6), 1);
    AtIndex(src, i, KeyCalls(ipv6), 2);
    var m1 := RunKeyHead(env, src, i, m, off, if ipv6 then 160 else 64);
    m' := RunAddress(env, src, i, m1, ipv6);
    WriteJoined(m.stack, off, head + UidKey(env), if ipv6 then m.ctx[8..24] else m.ctx[4..8]);
  }

  /** The prefix length and the uid of a key. */
  lemma RunKeyHead(env: Env, src: seq<Sym>, i: nat, m: Machine, off: i16, bits: i32) returns (m': Machine)
    requires ForwardOnly(src) && Valid(m) && m.regs[6] == CtxPtr(0) && i + 2 < |src|
    requires src[i] == StoreImm32(10, off, bits) && bits >= 0 && -28 <= off <= -8
    requires src[i + 1] == Load32(0, 10, -32) && src[i + 2] == StoreReg32(10, off + 4, 0)
    requires StackReadable(m.stack, -32, 4) && ReadStack(m.stack, -32, 4) == UidKey(env)
    ensures Kept(m, m') && m'.regs[8] == m.regs[8]
    ensures m'.stack == WriteStack(m.stack, off, ToLe(bits, 4) + UidKey(env))
    ensures Denote(env, src, i, m) == Denote(env, src, i + 3, m')
  {
    hide ShiftRight, ToLe, FromLe;
    RunStoreImm32(env, src, i, m, off, bits);
    var m1 := m.(stack := WriteStack(m.stack, off, ToLe(bits, 4)));
    ReadOther(m.stack, off, ToLe(bits, 4), -32, 4);
    m' := RunCopy32(env, src, i + 1, m1, 10, -32, off + 4, UidKey(env));
    WriteJoined(m.stack, off, ToLe(bits, 4), UidKey(env));
  }

  lemma RunAddress(env: Env, src: seq<Sym>, i: nat, m: Machine, ipv6: bool) returns (m': Machine)
    requires ForwardOnly(src) && Valid(m) && At(src, i, KeyCalls(ipv6))
    requires m.regs[6] == CtxPtr(0) && |m.ctx| >= 24
    ensures Kept(m, m') && m'.regs[8] == m.regs[8]
    ensures m'.stack
         == WriteStack(m.stack, KeyOffset(ipv6) + 8, if ipv6 then m.ctx[8..24] else m.ctx[4..8])
    ensures Denote(env, src, i + 3, m) == Denote(env, src, i + KeyLength(ipv6), m')
  {
    hide ShiftRight, ToLe, FromLe;
    AtIndex(src, i, KeyCalls(ipv6), 3);
    AtIndex(src, i, KeyCalls(ipv6), 4);
    if ipv6 {
      AtIndex(src, i, KeyCalls(ipv6), 5);
      AtIndex(src, i, KeyCalls(ipv6), 6);
      m' := RunAddress6(env, src, i + 3, m);
    } else {
      m' := RunCopy32(env, src, i + 3, m, 6, 4, -8, m.ctx[4..8]);
    }
  }

  lemma RunAddress6(env: Env, src: seq<Sym>, i: nat, m: Machine) returns (m': Machine)
    requires ForwardOnly(src) && Valid(m) && i + 3 < |src|
    requires src[i] == Load64(0, 6, 8) && src[i + 1] == StoreReg64(10, -16, 0)
    requires src[i + 2] == Load64(0, 6, 16) && src[i + 3] == StoreReg64(10, -8, 0)
    requires m.regs[6] == CtxPtr(0) && |m.ctx| >= 24
    ensures Kept(m, m') && m'.regs[8] == m.regs[8]
    ensures m'.stack == WriteStack(m.stack, -16, m.ctx[8..24])
    ensures Denote(env, src, i, m) == Denote(env, src, i + 4, m')
  {
    hide ShiftRight, ToLe, FromLe;
    var m1 := RunCopy64(env, src, i, m, 8, -16, m.ctx[8..16]);
    m' := RunCopy64(env, src, i + 2, m1, 16, -8, m.ctx[16..24]);
    WriteJoined(m.stack, -16, m.ctx[8..16], m.ctx[16..24]);
    assert m.ctx[8..24] == m.ctx[8..16] + m.ctx[16..24];
  }

  // ----- the marking tail -----

  /** From `allow` on, the program accepts with r0 = 1 and touches nothing. */
  lemma RunEnd(env: Env, src: seq<Sym>, i: nat, m: Machine) returns (m': Machine)
    requires ForwardOnly(src) && Valid(m) && At(src, i, EndCalls())
    ensures m'.mark == m.mark && m'.ctx == m.ctx
    ensures Denote(env, src, i, m) == Exited(Num(1), m')
  {
    hide ShiftRight, ToLe, FromLe, NewInsn;
    AtIndex(src, i, EndCalls(), 0);
    AtIndex(src, i, EndCalls(), 1);
    AtIndex(src, i, EndCalls(), 2);
    m' := RunAccept(env, src, i + 1, m);
  }

  lemma RunAccept(env: Env, src: seq<Sym>, i: nat, m: Machine) returns (m': Machine)
    requires ForwardOnly(src) && Valid(m) && i + 1 < |src|
    requires src[i] == MovImm(0, 1) && src[i + 1] == Exit()
    ensures m'.mark == m.mark && m'.ctx == m.ctx
    ensures Denote(env, src, i, m) == Exited(Num(1), m')
  {
    hide ShiftRight, ToLe, FromLe;
    m' := m.(regs := m.regs[0 := Num(1)]);
    RunMovImm(env, src, i, m, 0, 1);
  }

  /** The constant stored at -28 becomes the mark of the socket. */
  lemma RunSetMark(env: Env, src: seq<Sym>, i: nat, m: Machine, value: i32) returns (m': Machine)
    requires ForwardOnly(src) && Valid(m) && i < |src| && src[i] == StoreImm32(10, -28, value)
    requires At(src, i + 1, SocketOptionCalls(SETSOCKOPT)) && m.regs[6] == CtxPtr(0) && value >= 0
    ensures Valid(m') && m'.mark == if env.unset then m.mark else value
    ensures Denote(env, src, i, m) == Denote(env, src, i + 8, m')
  {
    hide ShiftRight, ToLe, FromLe;
    RunStoreImm32(env, src, i, m, -28, value);
    var m1 := m.(stack := WriteStack(m.stack, -28, ToLe(value, 4)));
    ReadBack(m.stack, -28, ToLe(value, 4));
    LeWord(value);
    m' := RunSocketOption(env, src, i + 1, m1, SETSOCKOPT);
  }

  /** From `set_mark` on: the socket gets the bypass mark. */
  lemma RunMarked(env: Env, src: seq<Sym>, i: nat, m: Machine) returns (m': Machine)
    requires ForwardOnly(src) && Valid(m) && m.regs[6] == CtxPtr(0)
    requires At(src, i, AfterClearCalls()) && At(src, i + 3, SocketOptionCalls(SETSOCKOPT))
    requires At(src, i + 10, EndCalls())
    ensures m'.mark == MarkAfter(env, m.mark, true)
    ensures Denote(env, src, i + 1, m) == Exited(Num(1), m')
  {
    hide ShiftRight, ToLe, FromLe, NewInsn, SocketOptionCalls, LookupCalls;
    AtIndex(src, i, AfterClearCalls(), 1);
    AtIndex(src, i, AfterClearCalls(), 2);
    assert Denote(env, src, i + 1, m) == Denote(env, src, i + 2, m);
    var m1 := RunSetMark(env, src, i + 2, m, FWMARK_VALUE);
    m' := RunEnd(env, src, i + 10, m1);
  }

  /** The block that follows `get_socket_mark`: our own mark is cleared, a foreign one kept. */
  lemma RunInspect(env: Env, src: seq<Sym>, i: nat, m: Machine, prior: nat, allow: nat) returns (m': Machine)
    requires ForwardOnly(src) && Valid(m) && m.regs[6] == CtxPtr(0)
    requires At(src, i, InspectCalls()) && At(src, i + 3, SocketOptionCalls(SETSOCKOPT))
    requires At(src, i + 10, AfterClearCalls()) && At(src, allow, EndCalls())
    requires Find(src, "allow") == allow
    requires prior == MarkRead(env, m.mark) < 0x1_0000_0000
    requires StackReadable(m.stack, -28, 4) && ReadStack(m.stack, -28, 4) == ToLe(prior, 4)
    ensures m'.mark == MarkAfter(env, m.mark, false)
    ensures Denote(env, src, i, m) == Exited(Num(1), m')
  {
    hide ShiftRight, ToLe, FromLe, NewInsn, SocketOptionCalls, LookupCalls;
    var m1 := RunReadMark(env, src, i, m, prior);
    AtIndex(src, i, InspectCalls(), 1);
    AtIndex(src, i, InspectCalls(), 2);
    if prior == FWMARK_VALUE {
      assert Denote(env, src, i + 1, m1) == Denote(env, src, i + 2, m1);
      var m2 := RunSetMark(env, src, i + 2, m1, 0);
      AtIndex(src, i + 10, AfterClearCalls(), 0);
      assert Denote(env, src, i + 10, m2) == Denote(env, src, allow, m2);
      m' := RunEnd(env, src, allow, m2);
    } else {
      assert Denote(env, src, i + 1, m1) == Denote(env, src, allow, m1);
      m' := RunEnd(env, src, allow, m1);
    }
  }

  lemma RunReadMark(env: Env, src: seq<Sym>, i: nat, m: Machine, prior: nat) returns (m': Machine)
    requires ForwardOnly(src) && Valid(m) && At(src, i, InspectCalls())
    requires prior < 0x1_0000_0000
    requires StackReadable(m.stack, -28, 4) && ReadStack(m.stack, -28, 4) == ToLe(prior, 4)
    ensures m' == m.(regs := m.regs[0 := Num(prior)])
    ensures Denote(env, src, i, m) == Denote(env, src, i + 1, m')
  {
    hide ShiftRight, ToLe, FromLe;
    AtIndex(src, i, InspectCalls(), 0);
    LeWord(prior);
    m' := m.(regs := m.regs[0 := Num(prior)]);
  }

  // ----- the whole destination program -----

  /** The text from the decision block at `d` to the end. */
  ghost predicate Tail(src: seq<Sym>, d: nat) {
    && ForwardOnly(src)
    && At(src, d, DecideCalls())
    && At(src, d + 8, SocketOptionCalls(GETSOCKOPT)) && At(src, d + 15, InspectCalls())
    && At(src, d + 18, SocketOptionCalls(SETSOCKOPT)) && At(src, d + 25, AfterClearCalls())
    && At(src, d + 28, SocketOptionCalls(SETSOCKOPT)) && At(src, d + 35, EndCalls())
    && Find(src, "exclude_destination") == d + 4 && Find(src, "mark_socket") == d + 6
    && Find(src, "set_mark") == d + 26 && Find(src, "allow") == d + 35
  }

  /** The text from the bypass lookup at `p` to the end. */
  ghost predicate Policy(src: seq<Sym>, p: nat, fds: Fds, ipv6: bool) {
    && At(src, p, LookupCalls(fds.bypass, KeyOffset(ipv6))) && At(src, p + 4, BypassCalls())
    && At(src, p + 7, LookupCalls(fds.modes, -32)) && At(src, p + 11, ModeCalls())
    && At(src, p + 13, LookupCalls(fds.ranges, KeyOffset(ipv6)))
    && Find(src, "split_policy") == p + 6
    && Tail(src, p + 17)
  }

  ghost predicate Placed(src: seq<Sym>, fds: Fds, ipv6: bool) {
    && At(src, 0, TaskCalls(-36)) && At(src, 4, LookupCalls(fds.pids, -36))
    && At(src, 8, BaselineCalls()) && At(src, 14, KeyCalls(ipv6))
    && Find(src, "application_baseline") == 11
    && Policy(src, 14 + KeyLength(ipv6), fds, ipv6)
  }

  lemma LookupsPlaced(fds: Fds, ipv6: bool)
    ensures var src, p := DestinationSource(fds, ipv6), 14 + KeyLength(ipv6);
            && At(src, p, LookupCalls(fds.bypass, KeyOffset(ipv6)))
            && At(src, p + 7, LookupCalls(fds.modes, -32))
            && At(src, p + 13, LookupCalls(fds.ranges, KeyOffset(ipv6)))
  {
    hide At, DestinationSource, TaskCalls, LookupCalls, BaselineCalls, KeyCalls, BypassCalls, ModeCalls,
         DecideCalls, SocketOptionCalls, InspectCalls, AfterClearCalls, EndCalls;
    Block(fds, ipv6, 4, 0);
    Block(fds, ipv6, 6, 0);
    Block(fds, ipv6, 8, 0);
  }

  lemma OptionsPlaced(fds: Fds, ipv6: bool)
    ensures var src, d := DestinationSource(fds, ipv6), 31 + KeyLength(ipv6);
            && At(src, d + 8, SocketOptionCalls(GETSOCKOPT))
            && At(src, d + 18, SocketOptionCalls(SETSOCKOPT))
            && At(src, d + 28, SocketOptionCalls(SETSOCKOPT))
  {
    hide At, DestinationSource, TaskCalls, LookupCalls, BaselineCalls, KeyCalls, BypassCalls, ModeCalls,
         DecideCalls, SocketOptionCalls, InspectCalls, AfterClearCalls, EndCalls;
    Block(fds, ipv6, 10, 0);
    Block(fds, ipv6, 12, 0);
    Block(fds, ipv6, 14, 0);
  }

  lemma TailPlaced(fds: Fds, ipv6: bool)
    ensures Tail(DestinationSource(fds, ipv6), 31 + KeyLength(ipv6))
  {
    hide At, DestinationSource, ForwardOnly, Find, LookupCalls, DecideCalls, SocketOptionCalls, InspectCalls,
         AfterClearCalls, EndCalls;
    LabelsFound(fds, ipv6);
    OptionsPlaced(fds, ipv6);
    DecisionsPlaced(fds, ipv6);
  }

  lemma DecisionsPlaced(fds: Fds, ipv6: bool)
    ensures var src, d := DestinationSource(fds, ipv6), 31 + KeyLength(ipv6);
            && At(src, d, DecideCalls()) && At(src, d + 15, InspectCalls())
            && At(src, d + 25, AfterClearCalls()) && At(src, d + 35, EndCalls())
  {
    hide At, DestinationSource, TaskCalls, LookupCalls, BaselineCalls, KeyCalls, BypassCalls, ModeCalls,
         DecideCalls, SocketOptionCalls, InspectCalls, AfterClearCalls, EndCalls;
    Block(fds, ipv6, 9, 0);
    Block(fds, ipv6, 11, 0);
    Block(fds, ipv6, 13, 0);
    Block(fds, ipv6, 15, 0);
  }

  lemma BranchesPlaced(fds: Fds, ipv6: bool)
    ensures var src, p := DestinationSource(fds, ipv6), 14 + KeyLength(ipv6);
            At(src, p + 4, BypassCalls()) && At(src, p + 11, ModeCalls())
  {
    hide At, DestinationSource, TaskCalls, LookupCalls, BaselineCalls, KeyCalls, BypassCalls, ModeCalls,
         DecideCalls, SocketOptionCalls, InspectCalls, AfterClearCalls, EndCalls;
    Block(fds, ipv6, 5, 0);
    Block(fds, ipv6, 7, 0);
  }

  lemma LabelsFound(fds: Fds, ipv6: bool)
    ensures var src, k := DestinationSource(fds, ipv6), KeyLength(ipv6);
            && ForwardOnly(src)
            && Find(src, "application_baseline") == 11 && Find(src, "split_policy") == 20 + k
            && Find(src, "exclude_destination") == 35 + k && Find(src, "mark_socket") == 37 + k
            && Find(src, "set_mark") == 57 + k && Find(src, "allow") == 66 + k
  {
    hide DestinationSource, Find, Assemblable, ForwardOnly;
    DestinationShape(fds, ipv6);
    var home := Home(ipv6);
    assert "application_baseline" in home && "split_policy" in home && "exclude_destination" in home;
    assert "mark_socket" in home && "set_mark" in home && "allow" in home;
  }

  lemma PolicyPlaced(fds: Fds, ipv6: bool)
    ensures Policy(DestinationSource(fds, ipv6), 14 + KeyLength(ipv6), fds, ipv6)
  {
    hide At, DestinationSource, ForwardOnly, Find, Tail, LookupCalls, BypassCalls, ModeCalls;
    LabelsFound(fds, ipv6);
    LookupsPlaced(fds, ipv6);
    BranchesPlaced(fds, ipv6);
    TailPlaced(fds, ipv6);
  }

  lemma DestinationPlaced(fds: Fds, ipv6: bool)
    ensures Placed(DestinationSource(fds, ipv6), fds, ipv6)
  {
    PolicyPlaced(fds, ipv6);
    ProloguePlaced(fds, ipv6);
  }

  lemma ProloguePlaced(fds: Fds, ipv6: bool)
    ensures var src := DestinationSource(fds, ipv6);
            && At(src, 0, TaskCalls(-36)) && At(src, 4, LookupCalls(fds.pids, -36))
            && At(src, 8, BaselineCalls()) && At(src, 14, KeyCalls(ipv6))
            && Find(src, "application_baseline") == 11
  {
    hide At, DestinationSource, TaskCalls, LookupCalls, BaselineCalls, KeyCalls, BypassCalls, ModeCalls,
         DecideCalls, SocketOptionCalls, InspectCalls, AfterClearCalls, EndCalls;
    LabelsFound(fds, ipv6);
    Block(fds, ipv6, 0, 0);
    Block(fds, ipv6, 1, 0);
    Block(fds, ipv6, 2, 0);
    Block(fds, ipv6, 3, 0);
  }

  /** From `mark_socket` on: r8 tells the decision, the socket gets its final mark. */
  lemma RunDecided(env: Env, src: seq<Sym>, d: nat, m: Machine, marks: bool) returns (m': Machine)
    requires Tail(src, d) && Valid(m) && m.regs[6] == CtxPtr(0) && m.mark < 0x1_0000_0000
    requires m.regs[8] == Num(if marks then FWMARK_VALUE else 0)
    ensures m'.mark == MarkAfter(env, m.mark, marks)
    ensures Denote(env, src, d + 6, m) == Exited(Num(1), m')
  {
    hide Denote, At, ShiftRight, ToLe, FromLe, NewInsn, SocketOptionCalls, LookupCalls, ForwardOnly, Find;
    AtIndex(src, d, DecideCalls(), 6);
    AtIndex(src, d, DecideCalls(), 7);
    RunLabel(env, src, d + 6, m);
    RunJumpEq(env, src, d + 7, m, 8, FWMARK_VALUE, "set_mark");
    if marks {
      m' := RunMarked(env, src, d + 25, m);
    } else {
      var m1 := RunSocketOption(env, src, d + 8, m, GETSOCKOPT);
      assert m1.regs[6] == m1.regs[6..][0] == m.regs[6..][0];
      m' := RunInspect(env, src, d + 15, m1, MarkRead(env, m.mark), d + 35);
    }
  }

  /** From `exclude_destination` on: mark. */
  lemma RunExclude(env: Env, src: seq<Sym>, d: nat, m: Machine) returns (m': Machine)
    requires Tail(src, d) && Valid(m) && m.regs[6] == CtxPtr(0) && m.mark < 0x1_0000_0000
    ensures m'.mark == MarkAfter(env, m.mark, true)
    ensures Denote(env, src, d + 4, m) == Exited(Num(1), m')
  {
    hide Denote, At, ShiftRight, ToLe, FromLe, NewInsn, SocketOptionCalls, LookupCalls, ForwardOnly, Find;
    AtIndex(src, d, DecideCalls(), 4);
    AtIndex(src, d, DecideCalls(), 5);
    RunLabel(env, src, d + 4, m);
    RunMovImm(env, src, d + 5, m, 8, FWMARK_VALUE);
    m' := RunDecided(env, src, d, m.(regs := m.regs[8 := Num(FWMARK_VALUE)]), true);
  }

  /** In Include mode a hit clears the baseline. */
  lemma RunInclude(env: Env, src: seq<Sym>, d: nat, m: Machine) returns (m': Machine)
    requires Tail(src, d) && Valid(m) && m.regs[6] == CtxPtr(0) && m.mark < 0x1_0000_0000
    ensures m'.mark == MarkAfter(env, m.mark, false)
    ensures Denote(env, src, d + 2, m) == Exited(Num(1), m')
  {
    hide Denote, At, ShiftRight, ToLe, FromLe, NewInsn, SocketOptionCalls, LookupCalls, ForwardOnly, Find;
    AtIndex(src, d, DecideCalls(), 2);
    AtIndex(src, d, DecideCalls(), 3);
    var m1 := m.(regs := m.regs[8 := Num(0)]);
    RunMovImm(env, src, d + 2, m, 8, 0);
    RunJump(env, src, d + 3, m1, "mark_socket");
    m' := RunDecided(env, src, d, m1, false);
  }

  /** After the range lookup: mode 0 marks, another mode clears, a miss leaves the baseline. */
  lemma RunDecide(env: Env, src: seq<Sym>, d: nat, m: Machine, hit: bool, mode: nat, base: bool)
    returns (m': Machine)
    requires Tail(src, d) && Valid(m) && m.regs[6] == CtxPtr(0) && m.mark < 0x1_0000_0000
    requires LookedUp(m.regs[0]) && (m.regs[0] == Num(0) <==> !hit)
    requires m.regs[7] == Num(mode) && m.regs[8] == Num(if base then FWMARK_VALUE else 0)
    ensures m'.mark == MarkAfter(env, m.mark, if hit then mode == 0 else base)
    ensures Denote(env, src, d, m) == Exited(Num(1), m')
  {
    hide Denote, At, ShiftRight, ToLe, FromLe, NewInsn, SocketOptionCalls, LookupCalls, ForwardOnly, Find;
    AtIndex(src, d, DecideCalls(), 0);
    AtIndex(src, d, DecideCalls(), 1);
    RunJumpEq(env, src, d, m, 0, 0, "mark_socket");
    if !hit {
      m' := RunDecided(env, src, d, m, base);
    } else {
      RunJumpEq(env, src, d + 1, m, 7, 0, "exclude_destination");
      if mode == 0 {
        m' := RunExclude(env, src, d, m);
      } else {
        m' := RunInclude(env, src, d, m);
      }
    }
  }

  /** The stack holds the two keys the policy looks up, r8 the baseline. */
  ghost predicate KeysReady(env: Env, m: Machine, ipv6: bool, base: bool) {
    && Valid(m) && m.regs[6] == CtxPtr(0) && |m.ctx| >= 24 && m.mark < 0x1_0000_0000
    && m.regs[8] == Num(if base then FWMARK_VALUE else 0)
    && StackReadable(m.stack, -32, 4) && ReadStack(m.stack, -32, 4) == UidKey(env)
    && StackReadable(m.stack, KeyOffset(ipv6), KeySize(ipv6))
    && ReadStack(m.stack, KeyOffset(ipv6), KeySize(ipv6)) == DestinationKey(env, m.ctx, ipv6)
  }

  /** From `split_policy` on: the mode lookup, then the range lookup. */
  lemma RunSplit(env: Env, src: seq<Sym>, p: nat, fds: Fds, ipv6: bool, m: Machine, base: bool)
    returns (m': Machine)
    requires Policy(src, p, fds, ipv6) && Maps(env, fds, ipv6) && KeysReady(env, m, ipv6, base)
    ensures m'.mark == MarkAfter(env, m.mark,
              if RangeApplies(env, fds, m.ctx, ipv6)
              then FromLe(Lookup(env.maps[fds.modes], UidKey(env)).value) == 0 else base)
    ensures Denote(env, src, p + 7, m) == Exited(Num(1), m')
  {
    hide Denote, At, Tail, DestinationKey, UidKey, Hit, Lookup, LookupResult, ReadStack, StackReadable, ShiftRight,
         ToLe, FromLe, NewInsn, SocketOptionCalls, LookupCalls, ForwardOnly, Find;
    TailFinds(src, p + 17);
    var m1 := RunFind(env, src, p + 7, m, fds.modes, -32, UidKey(env));
    assert m1.regs[6] == m1.regs[6..][0] == m.regs[6..][0];
    assert m1.regs[8] == m1.regs[6..][2] == m.regs[6..][2];
    AtIndex(src, p + 11, ModeCalls(), 0);
    AtIndex(src, p + 11, ModeCalls(), 1);
    RunJumpEq(env, src, p + 11, m1, 0, 0, "mark_socket");
    ModeFound(env, fds, ipv6, UidKey(env));
    if Hit(env, fds.modes, UidKey(env)) {
      m' := RunRange(env, src, p + 12, m1, Lookup(env.maps[fds.modes], UidKey(env)).value, base,
                     fds.ranges, KeyOffset(ipv6), DestinationKey(env, m.ctx, ipv6));
    } else {
      m' := RunDecided(env, src, p + 17, m1, base);
    }
  }

  /** A mode found is a 32-bit value. */
  lemma ModeFound(env: Env, fds: Fds, ipv6: bool, key: seq<byte>)
    requires Maps(env, fds, ipv6)
    ensures fds.modes in env.maps
    ensures Hit(env, fds.modes, key) ==>
              && Lookup(env.maps[fds.modes], key).Some?
              && |Lookup(env.maps[fds.modes], key).value| == 4
              && LookupResult(env.maps[fds.modes], key) == MapValue(Lookup(env.maps[fds.modes], key).value)
  {
  }

  lemma TailFinds(src: seq<Sym>, d: nat)
    requires Tail(src, d)
    ensures ForwardOnly(src)
    ensures Find(src, "exclude_destination") == d + 4 && Find(src, "mark_socket") == d + 6
  {
  }

  lemma RunLoadMode(env: Env, src: seq<Sym>, i: nat, m: Machine, value: seq<byte>)
    requires ForwardOnly(src) && Valid(m) && i < |src| && src[i] == Load32(7, 0, 0)
    requires m.regs[0] == MapValue(value) && |value| == 4
    ensures Denote(env, src, i, m) == Denote(env, src, i + 1, m.(regs := m.regs[7 := Num(FromLe(value))]))
  {
    hide ShiftRight, ToLe, FromLe;
    assert value[0..4] == value;
  }

  /** Loads the mode found, then looks the destination up in the ranges. */
  lemma RunRange(env: Env, src: seq<Sym>, i: nat, m: Machine, value: seq<byte>, base: bool,
                 fd: i32, off: i32, key: seq<byte>)
    returns (m': Machine)
    requires i < |src| && src[i] == Load32(7, 0, 0)
    requires At(src, i + 1, LookupCalls(fd, off)) && Tail(src, i + 5)
    requires HasMap(env, fd, |key|) && StackReadable(m.stack, off, |key|)
    requires ReadStack(m.stack, off, |key|) == key
    requires Valid(m) && m.regs[6] == CtxPtr(0) && m.mark < 0x1_0000_0000
    requires m.regs[8] == Num(if base then FWMARK_VALUE else 0)
    requires m.regs[0] == MapValue(value) && |value| == 4
    ensures m'.mark == MarkAfter(env, m.mark, if Hit(env, fd, key) then FromLe(value) == 0 else base)
    ensures Denote(env, src, i, m) == Exited(Num(1), m')
  {
    hide Denote, At, Tail, ShiftRight, ToLe, FromLe, NewInsn, SocketOptionCalls, LookupCalls, ForwardOnly, Find;
    TailFinds(src, i + 5);
    RunLoadMode(env, src, i, m, value);
    var m1 := m.(regs := m.regs[7 := Num(FromLe(value))]);
    var m2 := RunFind(env, src, i + 1, m1, fd, off, key);
    assert m2.regs[6] == m2.regs[6..][0] == m1.regs[6..][0];
    assert m2.regs[7] == m2.regs[6..][1] == m1.regs[6..][1];
    assert m2.regs[8] == m2.regs[6..][2] == m1.regs[6..][2];
    m' := RunDecide(env, src, i + 5, m2, Hit(env, fd, key), FromLe(value), base);
  }

  /** From the bypass lookup on. */
  lemma RunPolicy(env: Env, src: seq<Sym>, p: nat, fds: Fds, ipv6: bool, m: Machine) returns (m': Machine)
    requires Policy(src, p, fds, ipv6) && Maps(env, fds, ipv6)
    requires KeysReady(env, m, ipv6, Hit(env, fds.pids, TaskKey(env)))
    ensures m'.mark == MarkAfter(env, m.mark, Marks(env, fds, m.ctx, ipv6))
    ensures Denote(env, src, p, m) == Exited(Num(1), m')
  {
    hide Denote, At, Tail, DestinationKey, UidKey, TaskKey, Hit, Lookup, LookupResult, ReadStack, StackReadable,
         ShiftRight, ToLe, FromLe, NewInsn, SocketOptionCalls, LookupCalls, ForwardOnly, Find;
    TailFinds(src, p + 17);
    var m1 := RunFind(env, src, p, m, fds.bypass, KeyOffset(ipv6), DestinationKey(env, m.ctx, ipv6));
    assert m1.regs[6] == m1.regs[6..][0] == m.regs[6..][0];
    assert m1.regs[8] == m1.regs[6..][2] == m.regs[6..][2];
    AtIndex(src, p + 4, BypassCalls(), 0);
    AtIndex(src, p + 4, BypassCalls(), 1);
    AtIndex(src, p + 4, BypassCalls(), 2);
    RunJumpEq(env, src, p + 4, m1, 0, 0, "split_policy");
    if Hit(env, fds.bypass, DestinationKey(env, m.ctx, ipv6)) {
      RunJump(env, src, p + 5, m1, "exclude_destination");
      m' := RunExclude(env, src, p + 17, m1);
    } else {
      RunLabel(env, src, p + 6, m1);
      m' := RunSplit(env, src, p, fds, ipv6, m1, Hit(env, fds.pids, TaskKey(env)));
    }
  }

  /** The state in which the kernel enters a socket-address program. */
  ghost predicate AtEntry(m: Machine) {
    Valid(m) && m.regs[1] == CtxPtr(0) && |m.ctx| >= 24 && m.mark < 0x1_0000_0000
  }

  /** From the first instruction to the keys. */
  lemma RunPrologue(env: Env, src: seq<Sym>, fds: Fds, ipv6: bool, m: Machine) returns (m': Machine)
    requires ForwardOnly(src) && At(src, 0, TaskCalls(-36)) && At(src, 4, LookupCalls(fds.pids, -36))
    requires At(src, 8, BaselineCalls()) && At(src, 14, KeyCalls(ipv6))
    requires Find(src, "application_baseline") == 11
    requires fds.pids in env.maps && HasMap(env, fds.pids, 4) && AtEntry(m)
    ensures m'.ctx == m.ctx && m'.mark == m.mark
    ensures KeysReady(env, m', ipv6, Hit(env, fds.pids, TaskKey(env)))
    ensures Denote(env, src, 0, m) == Denote(env, src, 14 + KeyLength(ipv6), m')
  {
    hide At, Denote, KeysReady, TaskKey, HasMap, Hit, Lookup, ForwardOnly, Find, ShiftRight, ToLe, FromLe,
         TaskCalls, LookupCalls, BaselineCalls, KeyCalls, ReadStack, StackReadable, UidKey, DestinationKey, LookupResult, KeySize, KeyOffset;
    var m1 := RunFindTask(env, src, 0, fds.pids, -36, m);
    m' := RunKeys(env, src, ipv6, m1, Hit(env, fds.pids, TaskKey(env)));
  }

  /** Looks the running task up in the pid map. */
  lemma RunFindTask(env: Env, src: seq<Sym>, i: nat, fd: i32, off: i16, m: Machine) returns (m': Machine)
    requires ForwardOnly(src) && At(src, i, TaskCalls(off)) && At(src, i + 4, LookupCalls(fd, off))
    requires HasMap(env, fd, 4) && Valid(m) && m.regs[1] == CtxPtr(0) && -512 <= off <= -4
    ensures Kept(m, m') && LookedUp(m'.regs[0])
    ensures m'.regs[0] == Num(0) <==> !Hit(env, fd, TaskKey(env))
    ensures Denote(env, src, i, m) == Denote(env, src, i + 8, m')
  {
    hide ShiftRight, ToLe, FromLe;
    var m1 := RunTask(env, src, i, m, off);
    m' := RunFind(env, src, i + 4, m1, fd, off, TaskKey(env));
    assert m'.regs[6] == m'.regs[6..][0] == m1.regs[6..][0];
  }

  /** From the baseline to the keys. */
  lemma RunKeys(env: Env, src: seq<Sym>, ipv6: bool, m: Machine, hit: bool) returns (m': Machine)
    requires ForwardOnly(src) && At(src, 8, BaselineCalls()) && At(src, 14, KeyCalls(ipv6))
    requires Find(src, "application_baseline") == 11
    requires Valid(m) && m.regs[6] == CtxPtr(0) && |m.ctx| >= 24 && m.mark < 0x1_0000_0000
    requires LookedUp(m.regs[0]) && (m.regs[0] == Num(0) <==> !hit)
    ensures m'.ctx == m.ctx && m'.mark == m.mark && KeysReady(env, m', ipv6, hit)
    ensures Denote(env, src, 8, m) == Denote(env, src, 14 + KeyLength(ipv6), m')
  {
    hide ShiftRight, ToLe, FromLe;
    var m1 := RunBaseline(env, src, 8, m, hit);
    m' := RunKey(env, src, 14, m1, ipv6);
    ReadBack(m1.stack, KeyOffset(ipv6), DestinationKey(env, m.ctx, ipv6));
    ReadOther(m1.stack, KeyOffset(ipv6), DestinationKey(env, m.ctx, ipv6), -32, 4);
  }

  /**
   Every destination program, for every task, destination, map contents and
   prior mark, accepts (r0 = 1), even when the socket-option helpers fail, and
   leaves the mark the policy asks for when they work.
   */
  lemma DestinationProgramDecides(env: Env, fds: Fds, ipv6: bool, m: Machine) returns (m': Machine)
    requires Maps(env, fds, ipv6) && AtEntry(m)
    ensures Assemblable(DestinationSource(fds, ipv6))
    ensures var code := Assemble(DestinationSource(fds, ipv6));
            Run(env, code, 0, m, |code|) == Exited(Num(1), m')
    ensures m'.mark == MarkAfter(env, m.mark, Marks(env, fds, m.ctx, ipv6))
    ensures HelpersWork(env) ==> m'.mark == FinalMark(m.mark, Marks(env, fds, m.ctx, ipv6))
  {
    hide DestinationSource, Marks, Run, Assemble, Assemblable, ForwardOnly, Denote, At, Find, KeysReady, TaskCalls,
         LookupCalls, BaselineCalls, KeyCalls, Policy;
    var src := DestinationSource(fds, ipv6);
    DestinationShape(fds, ipv6);
    DestinationPlaced(fds, ipv6);
    var m1 := RunPrologue(env, src, fds, ipv6, m);
    m' := RunPolicy(env, src, 14 + KeyLength(ipv6), fds, ipv6, m1);
    ForwardProgramsHalt(env, src, m);
    HelpersDecide(env, m.mark, Marks(env, fds, m.ctx, ipv6));
  }
}
