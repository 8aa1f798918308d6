/**
 What the filter does to a system call, said of the call's own fields and single bits: the number, the architecture
 and the six arguments, as the kernel lays them out.
 */
module SandboxCalls {
  import opened Bits
  import opened Wrappers
  import opened Words
  import opened Sandbox

  datatype Call = Call(nr: u32, arch: u32, ip: u64, args: seq<u64>)

  function Le64(w: u64): (r: seq<byte>)
    ensures |r| == 8
  {
    LeBytes(w % 0x1_0000_0000) + LeBytes(w / 0x1_0000_0000)
  }

  /** Number, architecture, instruction pointer, arguments. */
  function MakeData(c: Call): Data
    requires |c.args| == 6
  {
    LeBytes(c.nr) + LeBytes(c.arch) + Le64(c.ip)
      + Le64(c.args[0]) + Le64(c.args[1]) + Le64(c.args[2]) + Le64(c.args[3]) + Le64(c.args[4]) + Le64(c.args[5])
  }

  /** The low word of argument `i`. */
  function Arg(c: Call, i: nat): u32
    requires i < |c.args|
  {
    c.args[i] % 0x1_0000_0000
  }

  // ── The policy, field by field ──

  /** None of O_WRONLY, O_RDWR, O_CREAT, O_TRUNC, O_APPEND and the flag bit of O_TMPFILE. */
  predicate OpensForReading(flags: u32) {
    && !Bit(flags, 0) && !Bit(flags, 1)
    && !Bit(flags, 6)
    && !Bit(flags, 9) && !Bit(flags, 10)
    && !Bit(flags, 22)
  }

  /** Window size and terminal mode, and every command of the NVIDIA driver: direction 3, magic 'F'. */
  predicate KnownCommand(cmd: u32) {
    cmd == 0x5413 || cmd == 0x5402 || (cmd / 0x4000_0000 == 3 && cmd / 0x100 % 0x100 == 0x46)
  }

  predicate CallAllowed(m: Machine, allow: seq<u32>, c: Call)
    requires |c.args| == 6
  {
    && c.arch == (if m.X86_64? then 0xC000_003E else 0xC000_00B7)
    && (|| c.nr in allow
        || (c.nr == (if m.X86_64? then 1 else 64) && Arg(c, 0) in {1, 2})
        || (c.nr == (if m.X86_64? then 257 else 56) && OpensForReading(Arg(c, 2)))
        || (c.nr == (if m.X86_64? then 16 else 29) && KnownCommand(Arg(c, 1))))
  }

  // ── Words of the data ──

  lemma DataWords(c: Call)
    requires |c.args| == 6
    ensures var d := MakeData(c);
      && Word(d, DATA_NR) == c.nr && Word(d, DATA_ARCH) == c.arch
      && Word(d, DATA_ARG0) == Arg(c, 0) && Word(d, DATA_ARG1) == Arg(c, 1) && Word(d, DATA_ARG2) == Arg(c, 2)
  {
    var d := MakeData(c);
    assert d[0..4] == LeBytes(c.nr) && d[4..8] == LeBytes(c.arch);
    assert d[16..20] == LeBytes(Arg(c, 0)) && d[24..28] == LeBytes(Arg(c, 1)) && d[32..36] == LeBytes(Arg(c, 2));
    hide Le32, LeBytes, MakeData;
    WordReads(d, 0, c.nr);
    WordReads(d, 4, c.arch);
    WordReads(d, 16, Arg(c, 0));
    WordReads(d, 24, Arg(c, 1));
    WordReads(d, 32, Arg(c, 2));
  }

  // ── The two masks ──

  /** The denied flags, bit by bit. */
  lemma OpenatMask(x: u32)
    ensures And(x, OPENAT_DENY_FLAGS) == 0 <==> OpensForReading(x)
  {
    assert Doubled(0x1_0019, 4) == 0x10_0190 && Doubled(0x2003, 2) == 0x800C && Doubled(1, 11) == 0x800;
    hide BitAnd, Bit, Doubled;
    ZeroStep(x, 0, 0x20_0321);
    ZeroStep(x, 1, 0x10_0190);
    ZeroSkip(x, 2, 0x1_0019, 4);
    ZeroStep(x, 6, 0x800C);
    ZeroSkip(x, 7, 0x2003, 2);
    ZeroStep(x, 9, 0x1001);
    ZeroStep(x, 10, 0x800);
    ZeroSkip(x, 11, 1, 11);
    ZeroStep(x, 22, 0);
    NoMask(Halved(x, 23));
    hide Halved;
  }

  lemma NoMask(x: nat)
    ensures BitAnd(x, 0) == 0
  {
  }

  lemma HighMask(x: u32)
    ensures BitAnd(Halved(x, 16), 0xC000) == x / 0x4000_0000 * 0x4000
  {
    var z, w := x / 0x1_0000, x / 0x4000_0000;
    Powers();
    HalvedIs(x, 16);
    HalvedIs(z, 14);
    AndShift(z, 3, 14);
    AndOnes(w, 2);
    DoubledIs(3, 14);
    DoubledIs(w, 14);
    hide *;
    assert z / 0x4000 == w;
  }

  lemma Powers()
    ensures Ones(2) == 3 && Pow2(14) == 0x4000 && Pow2(16) == 0x1_0000
  {
    assert Pow2(4) == 16;
    assert Pow2(8) == 0x100;
    assert Pow2(12) == 0x1000;
  }

  lemma LowMask(x: u32)
    ensures BitAnd(Halved(x, 8), 0xC0_00FF) == BitAnd(Halved(x, 16), 0xC000) * 0x100 + x / 0x100 % 0x100
  {
    assert Pow2(8) == 0x100 && OnesBehind(0xC000, 8) == 0xC0_00FF;
    AndLow(Halved(x, 8), 0xC000, 8);
    HalvedTwice(x, 8, 8);
    HalvedIs(x, 8);
    LowIs(Halved(x, 8), 8);
    DoubledIs(BitAnd(Halved(x, 16), 0xC000), 8);
    hide *;
  }

  /** The driver's commands, as the two fields of their number. */
  lemma IoctlMask(x: u32)
    ensures And(x, RM_IOCTL_MASK) == RM_IOCTL_VALUE <==> x / 0x4000_0000 == 3 && x / 0x100 % 0x100 == 0x46
  {
    assert Pow2(8) == 0x100 && Doubled(0xC0_00FF, 8) == 0xC000_FF00;
    HighMask(x);
    LowMask(x);
    AndShift(x, 0xC0_00FF, 8);
    DoubledIs(BitAnd(Halved(x, 8), 0xC0_00FF), 8);
    hide BitAnd, Doubled, Halved, Pow2;
  }

  lemma PolicyOfCall(m: Machine, allow: seq<u32>, c: Call)
    requires |c.args| == 6
    ensures Allowed(m, allow, MakeData(c)) <==> CallAllowed(m, allow, c)
  {
    DataWords(c);
    OpenatMask(Arg(c, 2));
    IoctlMask(Arg(c, 1));
    hide MakeData, And, Word, OpensForReading;
  }

  /** For every allow-list that fits and every call: the filter ends with ALLOW exactly when the call is one the
      list names or one of the three whose arguments it looks at, and with the deny action otherwise. */
  lemma FilterMeansCalls(m: Machine, allow: seq<u32>, deny: u32, c: Call)
    requires |allow| <= 240 && |c.args| == 6
    ensures Run(Program(m, allow, deny), MakeData(c), 0, 0)
         == Some(if CallAllowed(m, allow, c) then 0x7fff_0000 else deny)
  {
    FilterMeansPolicy(m, allow, deny, MakeData(c));
    PolicyOfCall(m, allow, c);
    hide Run, MakeData, CallAllowed, Allowed;
  }

  /** A whole program, word for word: x86-64, with `exit` (60) as the only listed call. */
  lemma ProgramOfOne(deny: u32)
    ensures Program(X86_64, [60], deny) == [
      Insn(0x20, 0, 0, 4), Insn(0x15, 0, 16, 0xC000_003E), Insn(0x20, 0, 0, 0),
      Insn(0x15, 15, 0, 60),
      Insn(0x15, 2, 0, 1), Insn(0x15, 4, 0, 257), Insn(0x15, 6, 11, 16),
      Insn(0x20, 0, 0, 16), Insn(0x15, 10, 0, 1), Insn(0x15, 9, 8, 2),
      Insn(0x20, 0, 0, 32), Insn(0x54, 0, 0, 0x40_0643), Insn(0x15, 6, 5, 0),
      Insn(0x20, 0, 0, 24), Insn(0x15, 4, 0, 0x5413), Insn(0x15, 3, 0, 0x5402),
      Insn(0x54, 0, 0, 0xC000_FF00), Insn(0x15, 1, 0, 0xC000_4600),
      Insn(0x06, 0, 0, deny), Insn(0x06, 0, 0, 0x7FFF_0000)]
  {
    var prog := Program(X86_64, [60], deny);
    assert |prog| == 20;
  }
}
