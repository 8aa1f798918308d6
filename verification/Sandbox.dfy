/**
 The seccomp filter: a builder that lays out a classic-BPF program with one-byte relative jumps, an
 interpreter for it, and the policy the program must mean.
 */
module Sandbox {
  import opened Bits
  import opened Wrappers
  import opened Words

  const LD_W_ABS := 0x20
  const JEQ_K := 0x15
  const RET_K := 0x06
  const AND_K := 0x54

  const RET_ALLOW: u32 := 0x7fff_0000

  const DATA_NR := 0
  const DATA_ARCH := 4
  const DATA_ARG0 := 16
  const DATA_ARG1 := 24
  const DATA_ARG2 := 32

  const OPENAT_DENY_FLAGS: u32 := 0x40_0643
  const TIOCGWINSZ: u32 := 0x5413
  const TCSETS: u32 := 0x5402
  const RM_IOCTL_MASK: u32 := 0xc000_ff00
  const RM_IOCTL_VALUE: u32 := 0xc000_4600

  datatype Insn = Insn(code: nat, jt: nat, jf: nat, k: u32)

  /** Per-architecture numbers. */
  datatype Machine = X86_64 | Aarch64 {
    function AuditArch(): u32 { if X86_64? then 0xC000003E else 0xC00000B7 }
    function SysWrite(): u32 { if X86_64? then 1 else 64 }
    function SysOpenat(): u32 { if X86_64? then 257 else 56 }
    function SysIoctl(): u32 { if X86_64? then 16 else 29 }
  }

  /** The 64 bytes of `struct seccomp_data`. */
  type Data = d: seq<byte> | |d| == 64 witness seq(64, _ => 0)

  function Word(data: Data, off: nat): u32
    requires off + 4 <= 64
  {
    Le32(data, off)
  }

  function And(a: u32, b: u32): u32 {
    BitAnd(a, b)
  }

  // ── The policy ──

  /** What the filter is for, read off the call itself. */
  ghost predicate Allowed(m: Machine, allow: seq<u32>, data: Data) {
    var nr := Word(data, DATA_NR);
    && Word(data, DATA_ARCH) == m.AuditArch()
    && (|| nr in allow
        || (nr == m.SysWrite() && Word(data, DATA_ARG0) in {1, 2})
        || (nr == m.SysOpenat() && And(Word(data, DATA_ARG2), OPENAT_DENY_FLAGS) == 0)
        || (nr == m.SysIoctl() && IoctlAllowed(Word(data, DATA_ARG1))))
  }

  ghost predicate IoctlAllowed(cmd: u32) {
    cmd == TIOCGWINSZ || cmd == TCSETS || And(cmd, RM_IOCTL_MASK) == RM_IOCTL_VALUE
  }

  // ── The interpreter ──

  /** Run from `pc` with accumulator `a`; nothing on an index or an opcode the interpreter panics on. */
  function Run(prog: seq<Insn>, data: Data, pc: nat, a: u32): Option<u32>
    decreases |prog| - pc
  {
    if pc >= |prog| then None
    else
      var i := prog[pc];
      if i.code == LD_W_ABS then
        if i.k + 4 > 64 then None else Run(prog, data, pc + 1, Word(data, i.k))
      else if i.code == JEQ_K then Run(prog, data, pc + 1 + if a == i.k then i.jt else i.jf, a)
      else if i.code == AND_K then Run(prog, data, pc + 1, And(a, i.k))
      else if i.code == RET_K then Some(i.k)
      else None
  }

  method RunBpf(prog: seq<Insn>, data: Data) returns (r: Option<u32>)
    ensures r == Run(prog, data, 0, 0)
  {
    hide Word, And;
    var pc: nat := 0;
    var a: u32 := 0;
    while pc < |prog|
      invariant Run(prog, data, pc, a) == Run(prog, data, 0, 0)
      decreases |prog| - pc
    {
      var i := prog[pc];
      if i.code == LD_W_ABS {
        if i.k + 4 > 64 {
          return None;
        }
        a := Word(data, i.k);
        pc := pc + 1;
      } else if i.code == JEQ_K {
        pc := pc + 1 + if a == i.k then i.jt else i.jf;
      } else if i.code == AND_K {
        a := And(a, i.k);
        pc := pc + 1;
      } else if i.code == RET_K {
        return Some(i.k);
      } else {
        return None;
      }
    }
    return None;
  }

  // ── The layout, for an allow-list of n numbers ──

  const LD_ARCH := 0
  const JEQ_ARCH := 1
  const LD_NR := 2
  const DIRECT := 3
  function DispatchWrite(n: nat): nat { DIRECT + n }
  function DispatchOpenat(n: nat): nat { DispatchWrite(n) + 1 }
  function DispatchIoctl(n: nat): nat { DispatchOpenat(n) + 1 }
  function CheckWrite(n: nat): nat { DispatchIoctl(n) + 1 }
  function CheckOpenat(n: nat): nat { CheckWrite(n) + 3 }
  function CheckIoctl(n: nat): nat { CheckOpenat(n) + 3 }
  function Deny(n: nat): nat { CheckIoctl(n) + 5 }
  function Allow(n: nat): nat { Deny(n) + 1 }
  function ProgLen(n: nat): nat { Allow(n) + 1 }

  /** Relative jump, cut to one byte as the instruction field is. */
  function Jmp(from: nat, to: nat): nat
    requires from < to
  {
    (to - from - 1) % 256
  }

  /** The instruction at each index of the layout. */
  ghost function InsnAt(m: Machine, allow: seq<u32>, deny: u32, j: nat): Insn
    requires j < ProgLen(|allow|)
  {
    var n := |allow|;
    if j == LD_ARCH then Insn(LD_W_ABS, 0, 0, DATA_ARCH)
    else if j == JEQ_ARCH then Insn(JEQ_K, 0, Jmp(j, Deny(n)), m.AuditArch())
    else if j == LD_NR then Insn(LD_W_ABS, 0, 0, DATA_NR)
    else if j < DispatchWrite(n) then Insn(JEQ_K, Jmp(j, Allow(n)), 0, allow[j - DIRECT])
    else if j == DispatchWrite(n) then Insn(JEQ_K, Jmp(j, CheckWrite(n)), 0, m.SysWrite())
    else if j == DispatchOpenat(n) then Insn(JEQ_K, Jmp(j, CheckOpenat(n)), 0, m.SysOpenat())
    else if j == DispatchIoctl(n) then Insn(JEQ_K, Jmp(j, CheckIoctl(n)), Jmp(j, Deny(n)), m.SysIoctl())
    else if j == CheckWrite(n) then Insn(LD_W_ABS, 0, 0, DATA_ARG0)
    else if j == CheckWrite(n) + 1 then Insn(JEQ_K, Jmp(j, Allow(n)), 0, 1)
    else if j == CheckWrite(n) + 2 then Insn(JEQ_K, Jmp(j, Allow(n)), Jmp(j, Deny(n)), 2)
    else if j == CheckOpenat(n) then Insn(LD_W_ABS, 0, 0, DATA_ARG2)
    else if j == CheckOpenat(n) + 1 then Insn(AND_K, 0, 0, OPENAT_DENY_FLAGS)
    else if j == CheckOpenat(n) + 2 then Insn(JEQ_K, Jmp(j, Allow(n)), Jmp(j, Deny(n)), 0)
    else if j == CheckIoctl(n) then Insn(LD_W_ABS, 0, 0, DATA_ARG1)
    else if j == CheckIoctl(n) + 1 then Insn(JEQ_K, Jmp(j, Allow(n)), 0, TIOCGWINSZ)
    else if j == CheckIoctl(n) + 2 then Insn(JEQ_K, Jmp(j, Allow(n)), 0, TCSETS)
    else if j == CheckIoctl(n) + 3 then Insn(AND_K, 0, 0, RM_IOCTL_MASK)
    else if j == CheckIoctl(n) + 4 then Insn(JEQ_K, Jmp(j, Allow(n)), Jmp(j, Deny(n)), RM_IOCTL_VALUE)
    else if j == Deny(n) then Insn(RET_K, 0, 0, deny)
    else Insn(RET_K, 0, 0, RET_ALLOW)
  }

  ghost function Program(m: Machine, allow: seq<u32>, deny: u32): (prog: seq<Insn>)
    ensures |prog| == ProgLen(|allow|)
    ensures forall j | 0 <= j < |prog| :: prog[j] == InsnAt(m, allow, deny, j)
  {
    seq(ProgLen(|allow|), j requires 0 <= j < ProgLen(|allow|) => InsnAt(m, allow, deny, j))
  }

  /** The first `upTo` slots hold their instructions. */
  ghost predicate Filled(prog: seq<Insn>, m: Machine, allow: seq<u32>, deny: u32, upTo: nat)
    requires upTo <= ProgLen(|allow|) == |prog|
  {
    forall j | 0 <= j < upTo :: prog[j] == InsnAt(m, allow, deny, j)
  }

  /** Fill the program slot by slot. */
  method BuildProg(m: Machine, allow: seq<u32>, deny: u32) returns (prog: array<Insn>)
    ensures fresh(prog) && prog[..] == Program(m, allow, deny)
  {
    var n := |allow|;
    prog := new Insn[ProgLen(n)](_ => Insn(0, 0, 0, 0));
    SetUp(prog, m, allow, deny);
    ListDirect(prog, m, allow, deny);
    Dispatch(prog, m, allow, deny);
    CheckArguments(prog, m, allow, deny);
    CheckCommands(prog, m, allow, deny);
    hide InsnAt;
  }

  method SetUp(prog: array<Insn>, m: Machine, allow: seq<u32>, ghost deny: u32)
    requires prog.Length == ProgLen(|allow|)
    modifies prog
    ensures Filled(prog[..], m, allow, deny, DIRECT)
  {
    hide Jmp;
    var n := |allow|;
    prog[LD_ARCH] := Insn(LD_W_ABS, 0, 0, DATA_ARCH);
    prog[JEQ_ARCH] := Insn(JEQ_K, 0, Jmp(JEQ_ARCH, Deny(n)), m.AuditArch());
    prog[LD_NR] := Insn(LD_W_ABS, 0, 0, DATA_NR);
  }

  method ListDirect(prog: array<Insn>, ghost m: Machine, allow: seq<u32>, ghost deny: u32)
    requires prog.Length == ProgLen(|allow|) && Filled(prog[..], m, allow, deny, DIRECT)
    modifies prog
    ensures Filled(prog[..], m, allow, deny, DispatchWrite(|allow|))
  {
    hide Jmp;
    var n := |allow|;
    var i := 0;
    while i < n
      invariant 0 <= i <= n
      invariant Filled(prog[..], m, allow, deny, DIRECT + i)
    {
      var idx := DIRECT + i;
      prog[idx] := Insn(JEQ_K, Jmp(idx, Allow(n)), 0, allow[i]);
      i := i + 1;
    }
  }

  method Dispatch(prog: array<Insn>, m: Machine, allow: seq<u32>, ghost deny: u32)
    requires prog.Length == ProgLen(|allow|) && Filled(prog[..], m, allow, deny, DispatchWrite(|allow|))
    modifies prog
    ensures Filled(prog[..], m, allow, deny, CheckWrite(|allow|))
  {
    hide Jmp;
    var n := |allow|;
    prog[DispatchWrite(n)] := Insn(JEQ_K, Jmp(DispatchWrite(n), CheckWrite(n)), 0, m.SysWrite());
    prog[DispatchOpenat(n)] := Insn(JEQ_K, Jmp(DispatchOpenat(n), CheckOpenat(n)), 0, m.SysOpenat());
    prog[DispatchIoctl(n)] :=
      Insn(JEQ_K, Jmp(DispatchIoctl(n), CheckIoctl(n)), Jmp(DispatchIoctl(n), Deny(n)), m.SysIoctl());
  }

  /** The `write` and `openat` blocks. */
  method CheckArguments(prog: array<Insn>, ghost m: Machine, allow: seq<u32>, ghost deny: u32)
    requires prog.Length == ProgLen(|allow|) && Filled(prog[..], m, allow, deny, CheckWrite(|allow|))
    modifies prog
    ensures Filled(prog[..], m, allow, deny, CheckIoctl(|allow|))
  {
    hide Jmp;
    var n := |allow|;
    prog[CheckWrite(n)] := Insn(LD_W_ABS, 0, 0, DATA_ARG0);
    prog[CheckWrite(n) + 1] := Insn(JEQ_K, Jmp(CheckWrite(n) + 1, Allow(n)), 0, 1);
    prog[CheckWrite(n) + 2] := Insn(JEQ_K, Jmp(CheckWrite(n) + 2, Allow(n)), Jmp(CheckWrite(n) + 2, Deny(n)), 2);
    prog[CheckOpenat(n)] := Insn(LD_W_ABS, 0, 0, DATA_ARG2);
    prog[CheckOpenat(n) + 1] := Insn(AND_K, 0, 0, OPENAT_DENY_FLAGS);
    prog[CheckOpenat(n) + 2] := Insn(JEQ_K, Jmp(CheckOpenat(n) + 2, Allow(n)), Jmp(CheckOpenat(n) + 2, Deny(n)), 0);
  }

  /** The `ioctl` block and the two returns. */
  method CheckCommands(prog: array<Insn>, ghost m: Machine, allow: seq<u32>, deny: u32)
    requires prog.Length == ProgLen(|allow|) && Filled(prog[..], m, allow, deny, CheckIoctl(|allow|))
    modifies prog
    ensures Filled(prog[..], m, allow, deny, ProgLen(|allow|))
  {
    hide Jmp;
    var n := |allow|;
    prog[CheckIoctl(n)] := Insn(LD_W_ABS, 0, 0, DATA_ARG1);
    prog[CheckIoctl(n) + 1] := Insn(JEQ_K, Jmp(CheckIoctl(n) + 1, Allow(n)), 0, TIOCGWINSZ);
    prog[CheckIoctl(n) + 2] := Insn(JEQ_K, Jmp(CheckIoctl(n) + 2, Allow(n)), 0, TCSETS);
    prog[CheckIoctl(n) + 3] := Insn(AND_K, 0, 0, RM_IOCTL_MASK);
    prog[CheckIoctl(n) + 4] :=
      Insn(JEQ_K, Jmp(CheckIoctl(n) + 4, Allow(n)), Jmp(CheckIoctl(n) + 4, Deny(n)), RM_IOCTL_VALUE);
    prog[Deny(n)] := Insn(RET_K, 0, 0, deny);
    prog[Allow(n)] := Insn(RET_K, 0, 0, RET_ALLOW);
  }

  // ── The program means the policy ──

  const MAX_DIRECT := 240

  function Verdict(allowed: bool, deny: u32): Option<u32> {
    Some(if allowed then RET_ALLOW else deny)
  }

  /** A forward jump lands where it should exactly when it skips fewer than 256 instructions. */
  lemma JumpLands(from: nat, to: nat)
    requires from < to
    ensures from + 1 + Jmp(from, to) == to <==> to - from - 1 < 256
  {
  }

  lemma RunEnds(m: Machine, allow: seq<u32>, deny: u32, data: Data, a: u32)
    ensures Run(Program(m, allow, deny), data, Deny(|allow|), a) == Some(deny)
    ensures Run(Program(m, allow, deny), data, Allow(|allow|), a) == Some(RET_ALLOW)
  {
  }

  /** A conditional jump. */
  lemma RunJeq(m: Machine, allow: seq<u32>, deny: u32, data: Data, pc: nat, a: u32, k: u32, yes: nat, no: nat)
    requires pc < ProgLen(|allow|)
    requires InsnAt(m, allow, deny, pc).code == JEQ_K && InsnAt(m, allow, deny, pc).k == k
    requires pc + 1 + InsnAt(m, allow, deny, pc).jt == yes && pc + 1 + InsnAt(m, allow, deny, pc).jf == no
    ensures Run(Program(m, allow, deny), data, pc, a)
         == Run(Program(m, allow, deny), data, if a == k then yes else no, a)
  {
    hide InsnAt, Word, And;
  }

  lemma RunWrite(m: Machine, allow: seq<u32>, deny: u32, data: Data, a: u32)
    ensures Run(Program(m, allow, deny), data, CheckWrite(|allow|), a)
         == Verdict(Word(data, DATA_ARG0) in {1, 2}, deny)
  {
    hide Word, And;
    var n, c := |allow|, CheckWrite(|allow|);
    var prog, fd := Program(m, allow, deny), Word(data, DATA_ARG0);
    assert prog[c] == Insn(LD_W_ABS, 0, 0, DATA_ARG0);
    assert Run(prog, data, c, a) == Run(prog, data, c + 1, fd);
    JumpLands(c + 1, Allow(n));
    JumpLands(c + 2, Allow(n));
    JumpLands(c + 2, Deny(n));
    RunJeq(m, allow, deny, data, c + 1, fd, 1, Allow(n), c + 2);
    RunJeq(m, allow, deny, data, c + 2, fd, 2, Allow(n), Deny(n));
    RunEnds(m, allow, deny, data, fd);
    hide Run, InsnAt, Word;
  }

  lemma RunOpenat(m: Machine, allow: seq<u32>, deny: u32, data: Data, a: u32)
    ensures Run(Program(m, allow, deny), data, CheckOpenat(|allow|), a)
         == Verdict(And(Word(data, DATA_ARG2), OPENAT_DENY_FLAGS) == 0, deny)
  {
    hide Word, And;
    var n, c := |allow|, CheckOpenat(|allow|);
    var prog, flags := Program(m, allow, deny), Word(data, DATA_ARG2);
    var masked := And(flags, OPENAT_DENY_FLAGS);
    assert prog[c] == Insn(LD_W_ABS, 0, 0, DATA_ARG2) && prog[c + 1] == Insn(AND_K, 0, 0, OPENAT_DENY_FLAGS);
    assert Run(prog, data, c, a) == Run(prog, data, c + 1, flags);
    assert Run(prog, data, c + 1, flags) == Run(prog, data, c + 2, masked);
    JumpLands(c + 2, Allow(n));
    JumpLands(c + 2, Deny(n));
    RunJeq(m, allow, deny, data, c + 2, masked, 0, Allow(n), Deny(n));
    RunEnds(m, allow, deny, data, masked);
    hide Run, InsnAt, Word, And;
  }

  lemma RunIoctl(m: Machine, allow: seq<u32>, deny: u32, data: Data, a: u32)
    ensures Run(Program(m, allow, deny), data, CheckIoctl(|allow|), a)
         == Verdict(IoctlAllowed(Word(data, DATA_ARG1)), deny)
  {
    hide Word, And;
    var n, c := |allow|, CheckIoctl(|allow|);
    var prog, cmd := Program(m, allow, deny), Word(data, DATA_ARG1);
    var masked := And(cmd, RM_IOCTL_MASK);
    assert prog[c] == Insn(LD_W_ABS, 0, 0, DATA_ARG1) && prog[c + 3] == Insn(AND_K, 0, 0, RM_IOCTL_MASK);
    assert Run(prog, data, c, a) == Run(prog, data, c + 1, cmd);
    assert Run(prog, data, c + 3, cmd) == Run(prog, data, c + 4, masked);
    JumpLands(c + 1, Allow(n));
    JumpLands(c + 2, Allow(n));
    JumpLands(c + 4, Allow(n));
    JumpLands(c + 4, Deny(n));
    RunJeq(m, allow, deny, data, c + 1, cmd, TIOCGWINSZ, Allow(n), c + 2);
    RunJeq(m, allow, deny, data, c + 2, cmd, TCSETS, Allow(n), c + 3);
    RunJeq(m, allow, deny, data, c + 4, masked, RM_IOCTL_VALUE, Allow(n), Deny(n));
    RunEnds(m, allow, deny, data, cmd);
    RunEnds(m, allow, deny, data, masked);
    hide Run, InsnAt, Word, And;
  }

  /** Past the direct list only the three filtered calls remain. */
  ghost predicate Filtered(m: Machine, nr: u32, data: Data) {
    || (nr == m.SysWrite() && Word(data, DATA_ARG0) in {1, 2})
    || (nr == m.SysOpenat() && And(Word(data, DATA_ARG2), OPENAT_DENY_FLAGS) == 0)
    || (nr == m.SysIoctl() && IoctlAllowed(Word(data, DATA_ARG1)))
  }

  lemma RunDispatch(m: Machine, allow: seq<u32>, deny: u32, data: Data, nr: u32)
    ensures Run(Program(m, allow, deny), data, DispatchWrite(|allow|), nr) == Verdict(Filtered(m, nr, data), deny)
  {
    var n := |allow|;
    JumpLands(DispatchWrite(n), CheckWrite(n));
    JumpLands(DispatchOpenat(n), CheckOpenat(n));
    JumpLands(DispatchIoctl(n), CheckIoctl(n));
    JumpLands(DispatchIoctl(n), Deny(n));
    RunJeq(m, allow, deny, data, DispatchWrite(n), nr, m.SysWrite(), CheckWrite(n), DispatchOpenat(n));
    RunJeq(m, allow, deny, data, DispatchOpenat(n), nr, m.SysOpenat(), CheckOpenat(n), DispatchIoctl(n));
    RunJeq(m, allow, deny, data, DispatchIoctl(n), nr, m.SysIoctl(), CheckIoctl(n), Deny(n));
    RunWrite(m, allow, deny, data, nr);
    RunOpenat(m, allow, deny, data, nr);
    RunIoctl(m, allow, deny, data, nr);
    RunEnds(m, allow, deny, data, nr);
    hide Run, InsnAt, Word, And, IoctlAllowed;
  }

  /** Where the jump of the i-th direct comparison leads, counted from the first of them. */
  function Landing(n: nat, i: nat): nat
    requires i < n
  {
    i + 1 + (n - i + 14) % 256
  }

  /** To the last instruction if that is in reach, and else to a later comparison. */
  lemma LandsLater(n: nat, i: nat)
    requires i < n
    ensures if n - i <= MAX_DIRECT + 1 then DIRECT + Landing(n, i) == Allow(n) else i < Landing(n, i) < n
  {
  }

  lemma RunMatch(m: Machine, allow: seq<u32>, deny: u32, data: Data, i: nat)
    requires i < |allow|
    ensures Run(Program(m, allow, deny), data, DIRECT + i, allow[i])
         == Run(Program(m, allow, deny), data, DIRECT + Landing(|allow|, i), allow[i])
  {
    var a, to := allow[i], DIRECT + Landing(|allow|, i);
    assert DIRECT + i + 1 + Jmp(DIRECT + i, Allow(|allow|)) == to;
    RunJeq(m, allow, deny, data, DIRECT + i, a, a, to, DIRECT + i + 1);
    hide Run, InsnAt, Landing;
  }

  lemma RunNext(m: Machine, allow: seq<u32>, deny: u32, data: Data, i: nat, a: u32)
    requires i < |allow| && allow[i] != a
    ensures Run(Program(m, allow, deny), data, DIRECT + i, a) == Run(Program(m, allow, deny), data, DIRECT + i + 1, a)
  {
    var next := DIRECT + i + 1 + Jmp(DIRECT + i, Allow(|allow|));
    RunJeq(m, allow, deny, data, DIRECT + i, a, allow[i], next, DIRECT + i + 1);
    hide Run, InsnAt;
  }

  /** From the i-th direct comparison on, in a list of any length, as long as what remains of it is in reach of the
      last instruction. */
  lemma {:induction false} RunDirect(m: Machine, allow: seq<u32>, deny: u32, data: Data, nr: u32, i: nat)
    requires i <= |allow| <= i + MAX_DIRECT + 1
    ensures Run(Program(m, allow, deny), data, DIRECT + i, nr)
         == Verdict(nr in allow[i..] || Filtered(m, nr, data), deny)
    decreases |allow| - i
  {
    var n := |allow|;
    if i == n {
      RunDispatch(m, allow, deny, data, nr);
    } else if allow[i] == nr {
      RunMatch(m, allow, deny, data, i);
      LandsLater(n, i);
      RunEnds(m, allow, deny, data, nr);
      hide Run, Landing, Filtered;
    } else {
      RunNext(m, allow, deny, data, i, nr);
      RunDirect(m, allow, deny, data, nr, i + 1);
      assert allow[i..] == [allow[i]] + allow[i + 1..];
      hide Run, Filtered;
    }
  }

  /** The first three instructions: a foreign call takes the deny jump, any other goes on to its number. */
  lemma RunArch(m: Machine, allow: seq<u32>, deny: u32, data: Data)
    ensures var (prog, arch) := (Program(m, allow, deny), Word(data, DATA_ARCH));
      && Run(prog, data, LD_NR, arch) == Run(prog, data, DIRECT, Word(data, DATA_NR))
      && Run(prog, data, 0, 0)
           == Run(prog, data, if arch == m.AuditArch() then LD_NR else LD_NR + Jmp(JEQ_ARCH, Deny(|allow|)), arch)
  {
    hide Word, And;
    var prog, arch, nr := Program(m, allow, deny), Word(data, DATA_ARCH), Word(data, DATA_NR);
    assert prog[0] == Insn(LD_W_ABS, 0, 0, DATA_ARCH) && prog[2] == Insn(LD_W_ABS, 0, 0, DATA_NR);
    assert Run(prog, data, 0, 0) == Run(prog, data, 1, arch);
    assert Run(prog, data, 2, arch) == Run(prog, data, 3, nr);
    RunJeq(m, allow, deny, data, JEQ_ARCH, arch, m.AuditArch(), LD_NR, LD_NR + Jmp(JEQ_ARCH, Deny(|allow|)));
    hide Run, InsnAt, Word;
  }

  /** The compiled filter is the policy: for every allow-list that fits and every call it ends in
      bounds with ALLOW exactly when the policy allows the call, and the deny action otherwise. */
  lemma FilterMeansPolicy(m: Machine, allow: seq<u32>, deny: u32, data: Data)
    requires |allow| <= MAX_DIRECT
    ensures Run(Program(m, allow, deny), data, 0, 0) == Verdict(Allowed(m, allow, data), deny)
  {
    hide Run, Jmp, Word, And, IoctlAllowed;
    JumpLands(JEQ_ARCH, Deny(|allow|));
    RunArch(m, allow, deny, data);
    RunEnds(m, allow, deny, data, Word(data, DATA_ARCH));
    RunDirect(m, allow, deny, data, Word(data, DATA_NR), 0);
    assert allow[0..] == allow;
  }

  // ── Where one-byte jumps stop fitting ──

  /** Every jump the program of an n-entry list makes. */
  ghost predicate Jumps(n: nat, from: nat, to: nat) {
    || (from == JEQ_ARCH && to == Deny(n))
    || (DIRECT <= from < DispatchWrite(n) && to == Allow(n))
    || (from == DispatchWrite(n) && to == CheckWrite(n))
    || (from == DispatchOpenat(n) && to == CheckOpenat(n))
    || (from == DispatchIoctl(n) && to in {CheckIoctl(n), Deny(n)})
    || (from in {CheckWrite(n) + 1, CheckIoctl(n) + 1, CheckIoctl(n) + 2} && to == Allow(n))
    || (from in {CheckWrite(n) + 2, CheckOpenat(n) + 2, CheckIoctl(n) + 4} && to in {Allow(n), Deny(n)})
  }

  /** All of them fit the one-byte field exactly when the list has at most 240 entries. */
  lemma JumpsFitExactly(n: nat)
    ensures (forall from, to | Jumps(n, from, to) :: to - from - 1 < 256) <==> n <= MAX_DIRECT
  {
    assert Jumps(n, JEQ_ARCH, Deny(n));
  }

  /** One entry more and the filter no longer means the policy: the deny jump of a foreign-architecture
      call wraps to zero, so its first listed number is let through. */
  lemma OneTooMany(m: Machine, allow: seq<u32>, deny: u32, data: Data)
    requires |allow| == MAX_DIRECT + 1 && deny != RET_ALLOW
    requires Word(data, DATA_ARCH) != m.AuditArch() && Word(data, DATA_NR) == allow[0]
    ensures !Allowed(m, allow, data)
    ensures Run(Program(m, allow, deny), data, 0, 0) == Some(RET_ALLOW)
  {
    hide Word, And;
    var n, prog := |allow|, Program(m, allow, deny);
    var arch, nr := Word(data, DATA_ARCH), Word(data, DATA_NR);
    assert prog[0] == Insn(LD_W_ABS, 0, 0, DATA_ARCH);
    assert prog[1] == Insn(JEQ_K, 0, 0, m.AuditArch());
    assert prog[2] == Insn(LD_W_ABS, 0, 0, DATA_NR);
    assert prog[3] == Insn(JEQ_K, 255, 0, allow[0]);
    assert prog[259] == Insn(RET_K, 0, 0, RET_ALLOW);
    hide InsnAt, Word, And, IoctlAllowed;
    assert Run(prog, data, 3, nr) == Run(prog, data, 259, nr) == Some(RET_ALLOW);
    assert Run(prog, data, 1, arch) == Run(prog, data, 2, arch) == Run(prog, data, 3, nr);
    assert Run(prog, data, 0, 0) == Run(prog, data, 1, arch);
  }

  // ── Longer lists ──

  /** A number that is not among the remaining ones falls through to the filtered calls. */
  lemma {:induction false} RunMiss(m: Machine, allow: seq<u32>, deny: u32, data: Data, i: nat, a: u32)
    requires i <= |allow| && a !in allow[i..]
    ensures Run(Program(m, allow, deny), data, DIRECT + i, a) == Verdict(Filtered(m, a, data), deny)
    decreases |allow| - i
  {
    if i == |allow| {
      RunDispatch(m, allow, deny, data, a);
    } else {
      assert allow[i..] == [allow[i]] + allow[i + 1..];
      RunNext(m, allow, deny, data, i, a);
      RunMiss(m, allow, deny, data, i + 1, a);
    }
    hide Run, Filtered;
  }

  /** What the filtered calls allow is allowed from every direct comparison, whatever wraps on the way. */
  lemma {:induction false} RunFiltered(m: Machine, allow: seq<u32>, deny: u32, data: Data, i: nat, a: u32)
    requires i <= |allow| && Filtered(m, a, data)
    ensures Run(Program(m, allow, deny), data, DIRECT + i, a) == Some(RET_ALLOW)
    decreases |allow| - i
  {
    hide Filtered, Run, Landing;
    if i == |allow| {
      RunDispatch(m, allow, deny, data, a);
    } else if allow[i] != a {
      RunNext(m, allow, deny, data, i, a);
      RunFiltered(m, allow, deny, data, i + 1, a);
    } else {
      RunMatch(m, allow, deny, data, i);
      LandsLater(|allow|, i);
      if |allow| - i > MAX_DIRECT + 1 {
        RunFiltered(m, allow, deny, data, Landing(|allow|, i), a);
      } else {
        RunEnds(m, allow, deny, data, a);
      }
    }
  }

  /** A list one entry too long, or longer: the deny jump of a foreign-architecture call wraps into the list, so a
      call whose number and architecture word both pass the filters is let through. */
  lemma ForeignAllowed(m: Machine, allow: seq<u32>, deny: u32, data: Data)
    requires |allow| > MAX_DIRECT && Word(data, DATA_ARCH) != m.AuditArch()
    requires Filtered(m, Word(data, DATA_ARCH), data) && Filtered(m, Word(data, DATA_NR), data)
    ensures !Allowed(m, allow, data)
    ensures Run(Program(m, allow, deny), data, 0, 0) == Some(RET_ALLOW)
  {
    hide Word, And, Filtered, Run;
    RunArch(m, allow, deny, data);
    var to := LD_NR + Jmp(JEQ_ARCH, Deny(|allow|));
    assert LD_NR <= to < DIRECT + |allow|;
    if to == LD_NR {
      RunFiltered(m, allow, deny, data, 0, Word(data, DATA_NR));
    } else {
      RunFiltered(m, allow, deny, data, to - DIRECT, Word(data, DATA_ARCH));
    }
  }

  /** Such a call: the number of `write` in both words, on file descriptor 1. */
  function ForeignWrite(m: Machine): Data {
    var w := m.SysWrite();
    [w, 0, 0, 0, w, 0, 0, 0] + seq(8, _ => 0) + [1] + seq(47, _ => 0)
  }

  lemma ForeignWriteWords(m: Machine)
    ensures var d := ForeignWrite(m);
      Word(d, DATA_NR) == Word(d, DATA_ARCH) == m.SysWrite() && Word(d, DATA_ARG0) == 1
  {
  }

  /** For every list, the program means the policy on all calls exactly when the list has at most 240 entries. */
  lemma MeansPolicyExactly(m: Machine, allow: seq<u32>, deny: u32)
    requires deny != RET_ALLOW
    ensures |allow| <= MAX_DIRECT <==>
      forall data: Data :: Run(Program(m, allow, deny), data, 0, 0) == Verdict(Allowed(m, allow, data), deny)
  {
    if |allow| <= MAX_DIRECT {
      forall data: Data ensures Run(Program(m, allow, deny), data, 0, 0) == Verdict(Allowed(m, allow, data), deny) {
        FilterMeansPolicy(m, allow, deny, data);
      }
    } else {
      ForeignWriteWords(m);
      ForeignAllowed(m, allow, deny, ForeignWrite(m));
    }
    hide Run, Word, And, Allowed;
  }

  /** From 242 entries on a listed call can be refused too: the first one, when its number comes only once. */
  lemma ListedDenied(m: Machine, allow: seq<u32>, deny: u32, data: Data)
    requires |allow| > MAX_DIRECT + 1 && Word(data, DATA_ARCH) == m.AuditArch()
    requires Word(data, DATA_NR) == allow[0] && allow[0] !in allow[1..] && !Filtered(m, allow[0], data)
    ensures Allowed(m, allow, data)
    ensures Run(Program(m, allow, deny), data, 0, 0) == Some(deny)
  {
    hide Word, And, Filtered, Run, Landing;
    RunArch(m, allow, deny, data);
    RunMatch(m, allow, deny, data, 0);
    LandsLater(|allow|, 0);
    var next := Landing(|allow|, 0);
    assert allow[next..] == allow[1..][next - 1..];
    RunMiss(m, allow, deny, data, next, allow[0]);
  }
}
