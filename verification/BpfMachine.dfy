/**
The instruction words the code generator emits and the machine that runs them:
eleven registers holding tagged values, a 512-byte stack, a context buffer,
kernel maps and the mark of the socket under decision.

Control transfer follows section 4.3 of RFC 9669 (an offset is relative to the
instruction after the jump), wide loads occupy two slots (section 5.4), and
stores take an immediate or a register (section 5.1).
*/
module BpfMachine {
  import opened Bytes
  import opened Wrappers

  type i16 = x: int | -0x8000 <= x < 0x8000
  type i32 = x: int | -0x8000_0000 <= x < 0x8000_0000

  const FWMARK_VALUE: i32 := 245447468
  const SOL_SOCKET: i32 := 1
  const SO_MARK: i32 := 36
  const PSEUDO_MAP_FD: byte := 1

  const MAP_LOOKUP_ELEM: i32 := 1
  const GET_CURRENT_PID_TGID: i32 := 14
  const GET_CURRENT_UID_GID: i32 := 15
  const SETSOCKOPT: i32 := 49
  const GETSOCKOPT: i32 := 57

  const OP_ADD_IMM: byte := 0x07
  const OP_MOV_IMM: byte := 0xb7
  const OP_MOV_REG: byte := 0xbf
  const OP_RSH_IMM: byte := 0x77
  const OP_LOAD32: byte := 0x61
  const OP_LOAD64: byte := 0x79
  const OP_STORE_IMM32: byte := 0x62
  const OP_STORE_REG32: byte := 0x63
  const OP_STORE_REG64: byte := 0x7b
  const OP_WIDE: byte := 0x18
  const OP_CALL: byte := 0x85
  const OP_JA: byte := 0x05
  const OP_JEQ: byte := 0x15
  const OP_JNE: byte := 0x55
  const OP_EXIT: byte := 0x95

  /** One 8-byte slot: opcode, packed registers, offset, immediate. */
  datatype Insn = Insn(code: byte, registers: byte, off: i16, imm: i32) {
    function Dst(): nat { registers % 16 }
    function Src(): nat { registers / 16 }
    predicate IsJump() { code == OP_JA || code == OP_JEQ || code == OP_JNE }
  }

  function NewInsn(code: byte, dst: byte, src: byte, off: i16, imm: i32): (r: Insn)
    ensures dst < 16 ==> r.Dst() == dst
    ensures src < 16 ==> r.Src() == src
    ensures r.code == code && r.off == off && r.imm == imm
  {
    Insn(code, LowNibble(dst) + 16 * LowNibble(src), off, imm)
  }

  function LowNibble(n: byte): (r: byte)
    ensures r == n % 16
  {
    if n < 16 then n else n % 16
  }

  // ----- kernel maps -----

  datatype KernelMap =
    | HashMap(keySize: nat, entries: map<seq<byte>, seq<byte>>)
    | LpmTrie(keySize: nat, entries: map<seq<byte>, seq<byte>>)

  /** A trie key is a 32-bit prefix length followed by the data it prefixes. */
  function PrefixLen(key: seq<byte>): nat
    requires |key| >= 4
  {
    FromLe(key[..4])
  }

  ghost predicate LpmMatches(entry: seq<byte>, query: seq<byte>)
  {
    && |entry| == |query| >= 4
    && PrefixLen(entry) <= PrefixLen(query)
    && PrefixLen(entry) <= 8 * (|entry| - 4)
    && Bits(entry[4..])[..PrefixLen(entry)] == Bits(query[4..])[..PrefixLen(entry)]
  }

  ghost predicate LpmHit(entries: set<seq<byte>>, query: seq<byte>) {
    exists e :: e in entries && LpmMatches(e, query)
  }

  /** A longest matching entry: no other matching entry has a longer prefix. */
  ghost predicate LpmLongest(entries: set<seq<byte>>, query: seq<byte>, e: seq<byte>) {
    && e in entries && LpmMatches(e, query)
    && forall o :: o in entries && LpmMatches(o, query) ==> PrefixLen(o) <= PrefixLen(e)
  }

  lemma {:induction false} LpmLongestExists(entries: set<seq<byte>>, query: seq<byte>)
    requires LpmHit(entries, query)
    ensures exists e :: LpmLongest(entries, query, e)
    decreases entries
  {
    var e :| e in entries && LpmMatches(e, query);
    var rest := entries - {e};
    if LpmHit(rest, query) {
      LpmLongestExists(rest, query);
      var b :| LpmLongest(rest, query, b);
      assert LpmLongest(entries, query, if PrefixLen(b) < PrefixLen(e) then e else b);
    } else {
      assert LpmLongest(entries, query, e);
    }
  }

  ghost function Lookup(m: KernelMap, key: seq<byte>): (r: Option<seq<byte>>)
    ensures m.HashMap? ==> (r.Some? <==> key in m.entries)
    ensures m.HashMap? && r.Some? ==> r.value == m.entries[key]
    ensures m.LpmTrie? ==> (r.Some? <==> LpmHit(m.entries.Keys, key))
  {
    match m
    case HashMap(_, entries) => if key in entries then Some(entries[key]) else None
    case LpmTrie(_, entries) =>
      if LpmHit(entries.Keys, key) then
        LpmLongestExists(entries.Keys, key);
        var e :| LpmLongest(entries.Keys, key, e);
        Some(entries[e])
      else None
  }

  // ----- machine state -----

  datatype Value =
    | Uninit                              // unreadable: never written, or clobbered by a call
    | Num(n: nat)
    | CtxPtr(off: int)
    | StackPtr(off: int)                  // relative to r10
    | MapRef(fd: int)
    | MapValue(bytes: seq<byte>)          // non-null pointer to a map value

  datatype Machine = Machine(regs: seq<Value>, stack: map<int, byte>, ctx: seq<byte>, mark: nat)

  type Word = n: int | 0 <= n < 0x1_0000_0000

  /**
   What a program meets: the task, the maps, and whether the socket-option
   helpers fail. A failed read leaves some word in the buffer.
   */
  datatype Env = Env(pidTgid: nat, uidGid: nat, maps: map<int, KernelMap>, unread: Option<Word>, unset: bool)

  /** The word a program finds in its buffer after asking for the mark. */
  function MarkRead(env: Env, mark: nat): nat {
    if env.unread.Some? then env.unread.value else mark
  }

  const EINVAL: i32 := 22

  ghost predicate Valid(m: Machine) {
    |m.regs| == 11 && m.regs[10] == StackPtr(0)
  }

  function SignExtend(imm: i32): nat {
    if imm < 0 then imm + 0x1_0000_0000_0000_0000 else imm
  }

  function Imm32(imm: i32): nat {
    if imm < 0 then imm + 0x1_0000_0000 else imm
  }

  predicate StackReadable(stack: map<int, byte>, off: int, size: nat) {
    -512 <= off && off + size <= 0 && forall i :: off <= i < off + size ==> i in stack
  }

  function ReadStack(stack: map<int, byte>, off: int, size: nat): (bs: seq<byte>)
    requires StackReadable(stack, off, size)
    ensures |bs| == size
  {
    seq(size, (i: nat) requires i < size => stack[off + i])
  }

  function WriteStack(stack: map<int, byte>, off: int, bs: seq<byte>): map<int, byte>
    decreases |bs|
  {
    if bs == [] then stack
    else
      var init := |bs| - 1;
      WriteStack(stack, off, bs[..init])[off + init := bs[init]]
  }

  /** A store defines exactly the bytes it covers. */
  lemma {:induction false} WriteStackAt(stack: map<int, byte>, off: int, bs: seq<byte>)
    ensures forall i :: i in WriteStack(stack, off, bs) <==> i in stack || off <= i < off + |bs|
    ensures forall i :: i in WriteStack(stack, off, bs) ==>
              WriteStack(stack, off, bs)[i] == if off <= i < off + |bs| then bs[i - off] else stack[i]
    decreases |bs|
  {
    if bs != [] {
      WriteStackAt(stack, off, bs[..|bs| - 1]);
    }
  }

  datatype Outcome = Next(m: Machine) | Fault

  function Load(m: Machine, insn: Insn, size: nat): Outcome
    requires |m.regs| == 11 && insn.Dst() < 10 && insn.Src() < 11
  {
    match m.regs[insn.Src()]
    case StackPtr(o) =>
      if StackReadable(m.stack, o + insn.off, size)
      then Next(m.(regs := m.regs[insn.Dst() := Num(FromLe(ReadStack(m.stack, o + insn.off, size)))]))
      else Fault
    case CtxPtr(o) =>
      if 0 <= o + insn.off && o + insn.off + size <= |m.ctx|
      then Next(m.(regs := m.regs[insn.Dst() := Num(FromLe(m.ctx[o + insn.off..o + insn.off + size]))]))
      else Fault
    case MapValue(bs) =>
      if 0 <= insn.off && insn.off + size <= |bs|
      then Next(m.(regs := m.regs[insn.Dst() := Num(FromLe(bs[insn.off..insn.off + size]))]))
      else Fault
    case _ => Fault
  }

  function Store(m: Machine, insn: Insn, bs: seq<byte>): Outcome
    requires |m.regs| == 11 && insn.Dst() < 11
  {
    match m.regs[insn.Dst()]
    case StackPtr(o) =>
      if -512 <= o + insn.off && o + insn.off + |bs| <= 0
      then Next(m.(stack := WriteStack(m.stack, o + insn.off, bs)))
      else Fault
    case CtxPtr(o) =>
      if 0 <= o + insn.off && o + insn.off + |bs| <= |m.ctx|
      then Next(m.(ctx := m.ctx[..o + insn.off] + bs + m.ctx[o + insn.off + |bs|..]))
      else Fault
    case _ => Fault
  }

  function Clobber(m: Machine, result: Value): Machine
    requires |m.regs| == 11
  {
    m.(regs := [result, Uninit, Uninit, Uninit, Uninit, Uninit] + m.regs[6..])
  }

  predicate SocketOptionArgs(m: Machine)
    requires |m.regs| == 11
  {
    && m.regs[1] == CtxPtr(0) && m.regs[2] == Num(SOL_SOCKET) && m.regs[3] == Num(SO_MARK)
    && m.regs[4].StackPtr? && -512 <= m.regs[4].off <= -4 && m.regs[5] == Num(4)
  }

  /** Helpers return in r0 and leave r1 to r5 unreadable. */
  ghost function Call(env: Env, m: Machine, helper: i32): Outcome
    requires |m.regs| == 11
  {
    if helper == GET_CURRENT_PID_TGID then Next(Clobber(m, Num(env.pidTgid)))
    else if helper == GET_CURRENT_UID_GID then Next(Clobber(m, Num(env.uidGid)))
    else if helper == MAP_LOOKUP_ELEM then
      if && m.regs[1].MapRef? && m.regs[1].fd in env.maps && m.regs[2].StackPtr?
         && StackReadable(m.stack, m.regs[2].off, env.maps[m.regs[1].fd].keySize)
      then
        var table := env.maps[m.regs[1].fd];
        match Lookup(table, ReadStack(m.stack, m.regs[2].off, table.keySize))
        case Some(v) => Next(Clobber(m, MapValue(v)))
        case None => Next(Clobber(m, Num(0)))
      else Fault
    else if helper == GETSOCKOPT then
      if SocketOptionArgs(m)
      then Next(Clobber(m.(stack := WriteStack(m.stack, m.regs[4].off, ToLe(MarkRead(env, m.mark), 4))),
                        Num(if env.unread.Some? then SignExtend(-EINVAL) else 0)))
      else Fault
    else if helper == SETSOCKOPT then
      if SocketOptionArgs(m) && StackReadable(m.stack, m.regs[4].off, 4)
      then if env.unset then Next(Clobber(m, Num(SignExtend(-EINVAL))))
           else Next(Clobber(m.(mark := FromLe(ReadStack(m.stack, m.regs[4].off, 4))), Num(0)))
      else Fault
    else Fault
  }

  /** The bytes a store instruction writes, when its source is a number. */
  function StoredBytes(insn: Insn, m: Machine): Option<seq<byte>>
    requires |m.regs| == 11
  {
    if insn.code == OP_STORE_IMM32 then Some(ToLe(Imm32(insn.imm), 4))
    else if insn.Src() > 10 || !m.regs[insn.Src()].Num? then None
    else Some(ToLe(m.regs[insn.Src()].n, if insn.code == OP_STORE_REG32 then 4 else 8))
  }

  /** The value an arithmetic or move instruction leaves in its destination. */
  function Alu(insn: Insn, m: Machine): Value
    requires |m.regs| == 11
  {
    if insn.Dst() > 10 || insn.Src() > 10 then Uninit
    else if insn.code == OP_MOV_REG then m.regs[insn.Src()]
    else if insn.code == OP_MOV_IMM then Num(SignExtend(insn.imm))
    else if insn.code == OP_RSH_IMM then
      if m.regs[insn.Dst()].Num? && 0 <= insn.imm < 64
      then Num(ShiftRight(m.regs[insn.Dst()].n, insn.imm))
      else Uninit
    else
      match m.regs[insn.Dst()] {
        case Num(n) => Num((n + SignExtend(insn.imm)) % 0x1_0000_0000_0000_0000)
        case StackPtr(o) => StackPtr(o + insn.imm)
        case CtxPtr(o) => CtxPtr(o + insn.imm)
        case _ => Uninit
      }
  }

  /** Every instruction that falls through to its successor. */
  ghost function Exec(env: Env, insn: Insn, m: Machine): (r: Outcome)
    requires |m.regs| == 11
    ensures r.Next? ==> |r.m.regs| == 11
  {
    if insn.code == OP_CALL then Call(env, m, insn.imm)
    else if insn.code == OP_STORE_IMM32 || insn.code == OP_STORE_REG32 || insn.code == OP_STORE_REG64 then
      match StoredBytes(insn, m) {
        case Some(bs) => if insn.Dst() <= 10 then Store(m, insn, bs) else Fault
        case None => Fault
      }
    else if insn.code == OP_LOAD32 || insn.code == OP_LOAD64 then
      if insn.Dst() < 10 && insn.Src() <= 10
      then Load(m, insn, if insn.code == OP_LOAD32 then 4 else 8)
      else Fault
    else if insn.code == OP_MOV_REG || insn.code == OP_MOV_IMM || insn.code == OP_RSH_IMM || insn.code == OP_ADD_IMM then
      var v := Alu(insn, m);
      if insn.Dst() < 10 && v != Uninit then Next(m.(regs := m.regs[insn.Dst() := v])) else Fault
    else Fault
  }

  /** The first slot of a wide load names the map, the second is all zero. */
  function ExecWide(lo: Insn, hi: Insn, m: Machine): Outcome
    requires |m.regs| == 11
  {
    if lo.Dst() < 10 && lo.Src() == PSEUDO_MAP_FD && hi == Insn(0, 0, 0, 0)
    then Next(m.(regs := m.regs[lo.Dst() := MapRef(lo.imm)]))
    else Fault
  }

  datatype Test = Taken | NotTaken | Illegal

  /** Whether a jump is taken. A map value is a non-null pointer. */
  function Branches(insn: Insn, m: Machine): Test
    requires |m.regs| == 11
  {
    if insn.code == OP_JA then Taken
    else if insn.Dst() > 10 then Illegal
    else
      match m.regs[insn.Dst()] {
        case Num(n) =>
          if (n == SignExtend(insn.imm)) == (insn.code == OP_JEQ) then Taken else NotTaken
        case MapValue(_) =>
          if insn.imm != 0 then Illegal else if insn.code == OP_JEQ then NotTaken else Taken
        case _ => Illegal
      }
  }

  datatype RunResult = Exited(r0: Value, m: Machine) | Crashed | OutOfFuel

  /** One instruction: the slot control moves to, and the state it leaves. */
  ghost function Step(env: Env, code: seq<Insn>, pc: nat, m: Machine): (r: (int, Outcome))
    requires |m.regs| == 11 && pc < |code|
    ensures r.1.Next? ==> |r.1.m.regs| == 11
  {
    var insn := code[pc];
    if insn.IsJump() then
      match Branches(insn, m)
      case Taken => (pc + insn.off + 1, Next(m))
      case NotTaken => (pc + 1, Next(m))
      case Illegal => (pc, Fault)
    else if insn.code == OP_WIDE then
      if pc + 1 < |code| then (pc + 2, ExecWide(insn, code[pc + 1], m)) else (pc, Fault)
    else (pc + 1, Exec(env, insn, m))
  }

  /** Runs a finished program from slot `pc` for at most `fuel` instructions. */
  ghost function Run(env: Env, code: seq<Insn>, pc: int, m: Machine, fuel: nat): RunResult
    requires |m.regs| == 11
    decreases fuel
  {
    if !(0 <= pc < |code|) then Crashed
    else if fuel == 0 then OutOfFuel
    else if code[pc].code == OP_EXIT then Exited(m.regs[0], m)
    else
      match Step(env, code, pc, m).1
      case Next(m') => Run(env, code, Step(env, code, pc, m).0, m', fuel - 1)
      case Fault => Crashed
  }
}
