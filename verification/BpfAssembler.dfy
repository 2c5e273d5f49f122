/**
The assembler of the code generator: labelled source code, its meaning, the
slots it is assembled into, and the proof that both run alike.
*/
module BpfAssembler {
  import opened Bytes
  import opened BpfMachine

  /** One builder call: a label, an instruction, a jump to a label, a wide load. */
  datatype Sym =
    | Label(name: string)
    | Op(insn: Insn)
    | Branch(insn: Insn, target: string)
    | Wide(lo: Insn, hi: Insn)
  {
    function Size(): nat {
      match this
      case Label(_) => 0
      case Op(_) => 1
      case Branch(_, _) => 1
      case Wide(_, _) => 2
    }

    predicate WellFormed() {
      match this
      case Label(_) => true
      case Op(insn) => !insn.IsJump() && insn.code != OP_WIDE
      case Branch(insn, _) => insn.IsJump() && insn.off == 0
      case Wide(lo, _) => lo.code == OP_WIDE
    }
  }

  predicate WellFormed(src: seq<Sym>) {
    forall i :: 0 <= i < |src| ==> src[i].WellFormed()
  }

  ghost predicate UniqueLabels(src: seq<Sym>) {
    forall i, j :: 0 <= i < j < |src| && src[i].Label? && src[j].Label? ==> src[i].name != src[j].name
  }

  ghost predicate Defined(src: seq<Sym>, name: string) {
    Label(name) in src
  }

  ghost predicate TargetsDefined(src: seq<Sym>) {
    forall i :: 0 <= i < |src| && src[i].Branch? ==> Defined(src, src[i].target)
  }

  /** The position of the first label of that name, or the length when there is none. */
  function Find(src: seq<Sym>, name: string): (i: nat)
    ensures i <= |src|
    ensures i < |src| ==> src[i] == Label(name)
    ensures forall j :: 0 <= j < i ==> src[j] != Label(name)
  {
    if src == [] then 0
    else if src[0] == Label(name) then 0
    else 1 + Find(src[1..], name)
  }

  /** The slot at which source position `i` starts. */
  function Addr(src: seq<Sym>, i: nat): (a: nat)
    requires i <= |src|
  {
    if i == 0 then 0 else Addr(src, i - 1) + src[i - 1].Size()
  }

  lemma {:induction false} AddrMonotone(src: seq<Sym>, i: nat, j: nat)
    requires i <= j <= |src|
    ensures Addr(src, i) <= Addr(src, j)
    ensures i < j && !src[i].Label? ==> Addr(src, i) < Addr(src, j)
    decreases j
  {
    if i < j {
      AddrMonotone(src, i, j - 1);
    }
  }

  function Offset(src: seq<Sym>, i: nat): int
    requires i < |src| && src[i].Branch?
  {
    Addr(src, Find(src, src[i].target)) - Addr(src, i) - 1
  }

  ghost predicate OffsetsInRange(src: seq<Sym>) {
    forall i :: 0 <= i < |src| && src[i].Branch? ==> -0x8000 <= Offset(src, i) < 0x8000
  }

  /** What `finish` demands: it panics on a missing label and on a far jump. */
  ghost predicate Assemblable(src: seq<Sym>) {
    WellFormed(src) && UniqueLabels(src) && TargetsDefined(src) && OffsetsInRange(src)
  }

  /** The slots of one source element, with its jump offset. */
  function Slots(s: Sym, off: i16): (r: seq<Insn>)
    ensures |r| == s.Size()
  {
    match s
    case Label(_) => []
    case Op(insn) => [insn]
    case Branch(insn, _) => [insn.(off := off)]
    case Wide(lo, hi) => [lo, hi]
  }

  /** The slots of the first `k` source elements, with the jumps before `done` patched. */
  ghost function Patched(src: seq<Sym>, k: nat, done: nat): (code: seq<Insn>)
    requires Assemblable(src) && k <= |src|
    ensures |code| == Addr(src, k)
  {
    if k == 0 then [] else Patched(src, k - 1, done) + SlotsAt(src, k - 1, done)
  }

  ghost function SlotsAt(src: seq<Sym>, i: nat, done: nat): seq<Insn>
    requires Assemblable(src) && i < |src|
  {
    Slots(src[i], if src[i].Branch? && i < done then Offset(src, i) else 0)
  }

  /** The finished program. */
  ghost function Assemble(src: seq<Sym>): (code: seq<Insn>)
    requires Assemblable(src)
    ensures |code| == Addr(src, |src|)
  {
    Patched(src, |src|, |src|)
  }

  lemma {:induction false} PatchedAt(src: seq<Sym>, k: nat, i: nat, done: nat)
    requires Assemblable(src) && i < k <= |src|
    ensures Addr(src, i) + src[i].Size() <= Addr(src, k)
    ensures Patched(src, k, done)[Addr(src, i)..Addr(src, i) + src[i].Size()] == SlotsAt(src, i, done)
    decreases k
  {
    hide Assemblable, SlotsAt, Addr;
    var init, a, n := Patched(src, k - 1, done), Addr(src, i), src[i].Size();
    AddrStep(src, k - 1);
    assert Patched(src, k, done) == init + SlotsAt(src, k - 1, done);
    if i < k - 1 {
      PatchedAt(src, k - 1, i, done);
      assert Patched(src, k, done)[a..a + n] == init[a..a + n];
    }
  }

  lemma AddrStep(src: seq<Sym>, i: nat)
    requires i < |src|
    ensures Addr(src, i + 1) == Addr(src, i) + src[i].Size()
  {
  }

  /** Patching one more jump rewrites exactly its own slot. */
  lemma {:induction false} PatchOne(src: seq<Sym>, k: nat, p: nat)
    requires Assemblable(src) && k <= |src| && p < |src| && src[p].Branch?
    ensures p >= k ==> Patched(src, k, p + 1) == Patched(src, k, p)
    ensures p < k ==>
              && Addr(src, p) < Addr(src, k)
              && Patched(src, k, p + 1)
              == Patched(src, k, p)[Addr(src, p) := src[p].insn.(off := Offset(src, p))]
    decreases k
  {
    if k > 0 {
      PatchOne(src, k - 1, p);
      AddrMonotone(src, 0, k);
      if p == k - 1 {
        assert SlotsAt(src, p, p) == [src[p].insn.(off := 0)];
        assert SlotsAt(src, p, p + 1) == [src[p].insn.(off := Offset(src, p))];
      } else {
        assert SlotsAt(src, k - 1, p + 1) == SlotsAt(src, k - 1, p);
      }
    }
  }

  lemma {:induction false} PatchNone(src: seq<Sym>, k: nat, p: nat, q: nat)
    requires Assemblable(src) && k <= |src| && p <= q
    requires forall i :: p <= i < q && i < |src| ==> !src[i].Branch?
    ensures Patched(src, k, p) == Patched(src, k, q)
    decreases k
  {
    if k > 0 {
      PatchNone(src, k - 1, p, q);
    }
  }

  // ----- the meaning of labelled source -----

  /** One source instruction: where control goes next, and the state it leaves. */
  ghost function After(env: Env, src: seq<Sym>, i: nat, m: Machine): (r: (nat, Outcome))
    requires |m.regs| == 11 && i < |src| && !src[i].Label?
    ensures r.0 == i + 1 || (src[i].Branch? && r.0 == Find(src, src[i].target))
    ensures r.1.Next? ==> |r.1.m.regs| == 11
  {
    match src[i]
    case Op(insn) => (i + 1, Exec(env, insn, m))
    case Wide(lo, hi) => (i + 1, ExecWide(lo, hi, m))
    case Branch(insn, target) =>
      match Branches(insn, m)
      case Taken => (Find(src, target), Next(m))
      case NotTaken => (i + 1, Next(m))
      case Illegal => (i + 1, Fault)
  }

  predicate Stops(s: Sym) { s.Op? && s.insn.code == OP_EXIT }

  /** Runs labelled source; passing a label costs nothing. */
  ghost function RunSource(env: Env, src: seq<Sym>, i: nat, m: Machine, fuel: nat): RunResult
    requires |m.regs| == 11
    decreases fuel, |src| - i
  {
    if i >= |src| then Crashed
    else if src[i].Label? then RunSource(env, src, i + 1, m, fuel)
    else if fuel == 0 then OutOfFuel
    else if Stops(src[i]) then Exited(m.regs[0], m)
    else
      match After(env, src, i, m).1
      case Next(m') => RunSource(env, src, After(env, src, i, m).0, m', fuel - 1)
      case Fault => Crashed
  }

  /** The step the machine takes at the slots of one source element. */
  lemma StepAtSlots(env: Env, code: seq<Insn>, pc: nat, s: Sym, off: i16, m: Machine)
    requires |m.regs| == 11 && s.WellFormed() && !s.Label? && pc + s.Size() <= |code|
    requires code[pc..pc + s.Size()] == Slots(s, off)
    ensures Step(env, code, pc, m)
         == match s
            case Op(insn) => (pc + 1, Exec(env, insn, m))
            case Wide(lo, hi) => (pc + 2, ExecWide(lo, hi, m))
            case Branch(insn, _) =>
              match Branches(insn, m)
              case Taken => (pc + off + 1, Next(m))
              case NotTaken => (pc + 1, Next(m))
              case Illegal => (pc, Fault)
  {
    var slots := code[pc..pc + s.Size()];
    assert code[pc] == slots[0];
    if s.Wide? {
      assert code[pc + 1] == slots[1];
    }
    if s.Branch? {
      assert Branches(code[pc], m) == Branches(s.insn, m);
    }
  }

  /** The machine takes the step of the source element whose slots it is at. */
  lemma SlotStep(env: Env, src: seq<Sym>, i: nat, m: Machine, code: seq<Insn>, off: i16)
    requires |m.regs| == 11 && i < |src| && !src[i].Label? && src[i].WellFormed()
    requires Addr(src, i) + src[i].Size() <= |code|
    requires code[Addr(src, i)..Addr(src, i) + src[i].Size()] == Slots(src[i], off)
    requires src[i].Branch? ==> off == Offset(src, i)
    ensures var step, after := Step(env, code, Addr(src, i), m), After(env, src, i, m);
            after.1 == step.1 && (after.1.Next? ==> step.0 == Addr(src, after.0))
  {
    StepAtSlots(env, code, Addr(src, i), src[i], off, m);
    assert Addr(src, i + 1) == Addr(src, i) + src[i].Size();
  }

  /** Assembler correctness: the assembled slots run exactly as the labelled source does. */
  lemma {:induction false} AssembledRunsAsSource(env: Env, src: seq<Sym>, i: nat, m: Machine, fuel: nat)
    requires Assemblable(src) && |m.regs| == 11 && i <= |src|
    ensures Run(env, Assemble(src), Addr(src, i), m, fuel) == RunSource(env, src, i, m, fuel)
    decreases fuel, |src| - i
  {
    if i == |src| {
    } else if src[i].Label? {
      assert Addr(src, i + 1) == Addr(src, i);
      AssembledRunsAsSource(env, src, i + 1, m, fuel);
    } else {
      var code, pc := Assemble(src), Addr(src, i);
      PatchedAt(src, |src|, i, |src|);
      assert src[i].WellFormed();
      assert code[pc] == code[pc..pc + src[i].Size()][0] == SlotsAt(src, i, |src|)[0];
      if fuel > 0 && !Stops(src[i]) {
        SlotStep(env, src, i, m, code, if src[i].Branch? then Offset(src, i) else 0);
        var (t, r) := After(env, src, i, m);
        if r.Next? {
          AssembledRunsAsSource(env, src, t, r.m, fuel - 1);
        }
      }
    }
  }

  /** No jump of an assembled program lands in the second slot of a wide load. */
  lemma JumpsMissWideTails(src: seq<Sym>, i: nat, w: nat)
    requires Assemblable(src) && i < |src| && src[i].Branch? && w < |src| && src[w].Wide?
    ensures Addr(src, i) + Offset(src, i) + 1 != Addr(src, w) + 1
  {
    var t := Find(src, src[i].target);
    if t <= w {
      AddrMonotone(src, t, w);
    } else {
      AddrMonotone(src, w + 1, t);
    }
  }

  // ----- forward-only source needs no fuel -----

  ghost predicate ForwardOnly(src: seq<Sym>) {
    forall i :: 0 <= i < |src| && src[i].Branch? ==> i < Find(src, src[i].target)
  }

  /** The fuel-free meaning of forward-only source from position `i`. */
  ghost function Denote(env: Env, src: seq<Sym>, i: nat, m: Machine): RunResult
    requires |m.regs| == 11 && ForwardOnly(src)
    decreases |src| - i
  {
    if i >= |src| then Crashed
    else if src[i].Label? then Denote(env, src, i + 1, m)
    else if Stops(src[i]) then Exited(m.regs[0], m)
    else
      match After(env, src, i, m).1
      case Next(m') => Denote(env, src, After(env, src, i, m).0, m')
      case Fault => Crashed
  }

  /** A forward-only program never runs longer than its remaining slots. */
  lemma {:induction false} ForwardRunHalts(env: Env, src: seq<Sym>, i: nat, m: Machine, fuel: nat)
    requires ForwardOnly(src) && |m.regs| == 11 && i <= |src|
    requires fuel >= Addr(src, |src|) - Addr(src, i)
    ensures RunSource(env, src, i, m, fuel) == Denote(env, src, i, m) != OutOfFuel
    decreases |src| - i
  {
    if i < |src| {
      AddrMonotone(src, i, |src|);
      assert Addr(src, i + 1) == Addr(src, i) + src[i].Size();
      if src[i].Label? {
        ForwardRunHalts(env, src, i + 1, m, fuel);
      } else if !Stops(src[i]) {
        var (t, r) := After(env, src, i, m);
        if r.Next? {
          AddrMonotone(src, i + 1, t);
          ForwardRunHalts(env, src, t, r.m, fuel - 1);
        }
      }
    }
  }

  /** Forward-only code halts within its own length, with the meaning of its source. */
  lemma {:induction false} ForwardProgramsHalt(env: Env, src: seq<Sym>, m: Machine)
    requires Assemblable(src) && ForwardOnly(src) && |m.regs| == 11
    ensures var code := Assemble(src);
            Run(env, code, 0, m, |code|) == Denote(env, src, 0, m) != OutOfFuel
  {
    AssembledRunsAsSource(env, src, 0, m, Addr(src, |src|));
    ForwardRunHalts(env, src, 0, m, Addr(src, |src|));
  }

  // ----- the builder -----

  /** The slots as emitted, before `finish` patches any offset. */
  function Emitted(src: seq<Sym>): seq<Insn> {
    if src == [] then [] else Emitted(src[..|src| - 1]) + Slots(src[|src| - 1], 0)
  }

  /** The label table: each label names the slot emitted next. */
  function Labels(src: seq<Sym>): map<string, nat> {
    if src == [] then map[]
    else
      var init, s := src[..|src| - 1], src[|src| - 1];
      if s.Label? then Labels(init)[s.name := |Emitted(init)|] else Labels(init)
  }

  /** The jumps to patch: the slot of each, and its target. */
  function Fixups(src: seq<Sym>): seq<(nat, string)> {
    if src == [] then []
    else
      var init, s := src[..|src| - 1], src[|src| - 1];
      if s.Branch? then Fixups(init) + [(|Emitted(init)|, s.target)] else Fixups(init)
  }

  /** The source positions of the jumps, in order. */
  ghost function Jumps(src: seq<Sym>): seq<nat> {
    if src == [] then []
    else
      var n := |src| - 1;
      if src[n].Branch? then Jumps(src[..n]) + [n] else Jumps(src[..n])
  }

  lemma {:induction false} EmittedLength(src: seq<Sym>, k: nat)
    requires k <= |src|
    ensures |Emitted(src[..k])| == Addr(src, k)
    decreases k
  {
    if k > 0 {
      EmittedLength(src, k - 1);
      assert src[..k][..k - 1] == src[..k - 1];
    }
  }

  lemma {:induction false} EmittedIsUnpatched(src: seq<Sym>, k: nat)
    requires Assemblable(src) && k <= |src|
    ensures Emitted(src[..k]) == Patched(src, k, 0)
  {
    if k > 0 {
      EmittedIsUnpatched(src, k - 1);
      assert src[..k][..k - 1] == src[..k - 1];
    }
  }

  /** The label table maps every defined label to the slot it stands before. */
  lemma {:induction false} LabelsAreAddresses(src: seq<Sym>, k: nat, name: string)
    requires UniqueLabels(src) && k <= |src|
    ensures name in Labels(src[..k]) <==> Defined(src[..k], name)
    ensures Defined(src[..k], name) ==> Labels(src[..k])[name] == Addr(src, Find(src, name))
    decreases k
  {
    if k > 0 {
      var s := src[k - 1];
      assert src[..k][..k - 1] == src[..k - 1];
      assert src[..k] == src[..k - 1] + [s];
      LabelsAreAddresses(src, k - 1, name);
      if s == Label(name) {
        EmittedLength(src, k - 1);
        assert Find(src, name) == k - 1;
      }
    }
  }

  lemma {:induction false} FixupsAreJumps(src: seq<Sym>, k: nat)
    requires k <= |src|
    ensures |Fixups(src[..k])| == |Jumps(src[..k])|
    ensures forall j :: 0 <= j < |Jumps(src[..k])| ==>
              && Jumps(src[..k])[j] < k && src[Jumps(src[..k])[j]].Branch?
              && Fixups(src[..k])[j] == (Addr(src, Jumps(src[..k])[j]), src[Jumps(src[..k])[j]].target)
    decreases k
  {
    if k > 0 {
      assert src[..k][..k - 1] == src[..k - 1];
      FixupsAreJumps(src, k - 1);
      EmittedLength(src, k - 1);
    }
  }

  lemma {:induction false} JumpsAreAllInOrder(src: seq<Sym>, k: nat)
    requires k <= |src|
    ensures forall i :: i in Jumps(src[..k]) <==> 0 <= i < k && src[i].Branch?
    ensures forall j :: 0 <= j < |Jumps(src[..k])| ==> Jumps(src[..k])[j] < k
    ensures forall i, j :: 0 <= i < j < |Jumps(src[..k])| ==> Jumps(src[..k])[i] < Jumps(src[..k])[j]
    decreases k
  {
    if k > 0 {
      assert src[..k][..k - 1] == src[..k - 1];
      JumpsAreAllInOrder(src, k - 1);
    }
  }

  /** The next jump position, or the end when all jumps are patched. */
  ghost function NextJump(src: seq<Sym>, j: nat): nat {
    if j < |Jumps(src)| then Jumps(src)[j] else |src|
  }

  /** The first position after the jump before that one. */
  ghost function PastJump(src: seq<Sym>, j: nat): nat {
    if j == 0 then 0 else NextJump(src, j - 1) + 1
  }

  lemma NoJumpBetween(src: seq<Sym>, j: nat)
    requires j <= |Jumps(src)|
    ensures NextJump(src, j) <= |src|
    ensures forall i :: PastJump(src, j) <= i < NextJump(src, j) ==> !src[i].Branch?
    ensures j > 0 ==> NextJump(src, j - 1) < NextJump(src, j)
  {
    assert src[..|src|] == src;
    JumpsAreAllInOrder(src, |src|);
    assert forall m :: 0 <= m < |Jumps(src)| ==>
                         Jumps(src)[m] < PastJump(src, j) || NextJump(src, j) <= Jumps(src)[m];
    forall i | PastJump(src, j) <= i < NextJump(src, j)
      ensures !src[i].Branch?
    {
      assert i !in Jumps(src[..|src|]);
    }
  }

  /** What `finish` finds for a jump: its unpatched slot, and its label in the table. */
  lemma JumpSlot(src: seq<Sym>, p: nat)
    requires Assemblable(src) && p < |src| && src[p].Branch?
    ensures Addr(src, p) < Addr(src, |src|)
    ensures Patched(src, |src|, p)[Addr(src, p)] == src[p].insn
    ensures src[p].target in Labels(src)
    ensures Labels(src)[src[p].target] == Addr(src, Find(src, src[p].target))
  {
    PatchedAt(src, |src|, p, p);
    assert src[p].WellFormed();
    var a := Addr(src, p);
    assert Patched(src, |src|, p)[a] == Patched(src, |src|, p)[a..a + 1][0];
    assert src[..|src|] == src && Defined(src, src[p].target);
    LabelsAreAddresses(src, |src|, src[p].target);
  }

  /** Before the first patch the code is as emitted. */
  lemma FirstPatch(src: seq<Sym>)
    requires Assemblable(src)
    ensures Emitted(src) == Patched(src, |src|, NextJump(src, 0))
  {
    assert src[..|src|] == src;
    EmittedIsUnpatched(src, |src|);
    NoJumpBetween(src, 0);
    PatchNone(src, |src|, 0, NextJump(src, 0));
  }

  /** One iteration of `finish`: what it reads, and what its patch leaves. */
  lemma NextPatch(src: seq<Sym>, j: nat)
    requires Assemblable(src) && j < |Fixups(src)|
    ensures j < |Jumps(src)|
    ensures var (at, target) := Fixups(src)[j];
            && at < |Patched(src, |src|, NextJump(src, j))|
            && target in Labels(src)
            && var offset := Labels(src)[target] - at - 1;
               && -0x8000 <= offset < 0x8000
               && var code := Patched(src, |src|, NextJump(src, j));
                  code[at := code[at].(off := offset)] == Patched(src, |src|, NextJump(src, j + 1))
  {
    hide Patched, Labels, Fixups, Jumps;
    assert src[..|src|] == src;
    FixupsAreJumps(src, |src|);
    var p := NextJump(src, j);
    JumpSlot(src, p);
    PatchOne(src, |src|, p);
    NoJumpBetween(src, j + 1);
    PatchNone(src, |src|, p + 1, NextJump(src, j + 1));
  }

  /** The three tables of a source one call longer. */
  lemma OneMoreCall(src: seq<Sym>, s: Sym)
    requires WellFormed(src) && UniqueLabels(src) && s.WellFormed()
    requires s.Label? ==> s.name !in Labels(src)
    ensures WellFormed(src + [s]) && UniqueLabels(src + [s])
    ensures Emitted(src + [s]) == Emitted(src) + Slots(s, 0)
    ensures Labels(src + [s]) == if s.Label? then Labels(src)[s.name := |Emitted(src)|] else Labels(src)
    ensures Fixups(src + [s])
         == if s.Branch? then Fixups(src) + [(|Emitted(src)|, s.target)] else Fixups(src)
  {
    var more := src + [s];
    assert more[..|more| - 1] == src;
    if s.Label? {
      assert src[..|src|] == src;
      LabelsAreAddresses(src, |src|, s.name);
      forall i | 0 <= i < |src| && src[i].Label?
        ensures src[i].name != s.name
      {
        assert src[i] in src;
      }
    }
  }

  class ProgramBuilder {
    var instructions: seq<Insn>
    var labels: map<string, nat>
    var fixups: seq<(nat, string)>
    ghost var source: seq<Sym>    // the calls made so far

    ghost predicate Valid()
      reads this
    {
      && WellFormed(source) && UniqueLabels(source)
      && instructions == Emitted(source)
      && labels == Labels(source)
      && fixups == Fixups(source)
    }

    constructor ()
      ensures Valid() && source == [] && labels == map[]
    {
      instructions, labels, fixups, source := [], map[], [], [];
    }

    method Emit(s: Sym)
      requires Valid() && s.Op? && s.WellFormed()
      modifies this
      ensures Valid() && source == old(source) + [s] && labels == old(labels)
    {
      OneMoreCall(source, s);
      instructions := instructions + [s.insn];
      source := source + [s];
    }

    method Jump(s: Sym)
      requires Valid() && s.Branch? && s.WellFormed()
      modifies this
      ensures Valid() && source == old(source) + [s] && labels == old(labels)
    {
      OneMoreCall(source, s);
      fixups := fixups + [(|instructions|, s.target)];
      instructions := instructions + [s.insn];
      source := source + [s];
    }

    method LoadMap(dst: byte, fd: i32)
      requires Valid()
      modifies this
      ensures Valid() && source == old(source) + [MapLoad(dst, fd)] && labels == old(labels)
    {
      OneMoreCall(source, MapLoad(dst, fd));
      instructions := instructions + [NewInsn(OP_WIDE, dst, PSEUDO_MAP_FD, 0, fd)];
      instructions := instructions + [NewInsn(0, 0, 0, 0, 0)];
      source := source + [MapLoad(dst, fd)];
    }

    method PlaceLabel(name: string)
      requires Valid() && name !in labels
      modifies this
      ensures Valid() && source == old(source) + [Label(name)]
      ensures labels.Keys == old(labels.Keys) + {name}
    {
      OneMoreCall(source, Label(name));
      labels := labels[name := |instructions|];
      source := source + [Label(name)];
    }

    /** Patches every recorded jump with the distance to its label. */
    method Finish() returns (code: seq<Insn>)
      requires Valid() && TargetsDefined(source) && OffsetsInRange(source)
      ensures code == Assemble(source)
    {
      code := instructions;
      FirstPatch(source);
      for j := 0 to |fixups|
        invariant code == Patched(source, |source|, NextJump(source, j))
      {
        NextPatch(source, j);
        var (at, target) := fixups[j];
        var destination: int := labels[target];
        code := code[at := code[at].(off := destination - at - 1)];
      }
      assert source[..|source|] == source;
      FixupsAreJumps(source, |source|);
    }
  }

  // ----- the calls the programs make -----

  function MapLoad(dst: byte, fd: i32): Sym {
    Wide(NewInsn(OP_WIDE, dst, PSEUDO_MAP_FD, 0, fd), NewInsn(0, 0, 0, 0, 0))
  }
}
