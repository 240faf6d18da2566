/**
 The seccomp program that confines the native inference worker: a classic BPF
 instruction table, a small forward-only accumulator machine that runs it, and the
 policy the table is meant to compute.
 */
module SyscallFilter {

  type Word = bv32

  // The 64 bytes the kernel presents to a filter, as sixteen 32-bit words:
  // nr, arch, instruction pointer (2 words), then six 64-bit arguments, low word first.
  type SeccompData = w: seq<Word> | |w| == 16 witness seq(16, _ => 0)

  const OFFSET_NR := 0
  const OFFSET_ARCH := 4
  const OFFSET_ARG0 := 16

  const RET_KILL_PROCESS: Word := 0x8000_0000
  const RET_ALLOW: Word := 0x7fff_0000
  const RET_EPERM: Word := 0x0005_0001   // SECCOMP_RET_ERRNO | EPERM
  const RET_ENOSYS: Word := 0x0005_0026  // SECCOMP_RET_ERRNO | ENOSYS

  const X32_BIT: Word := 0x4000_0000
  const CLONE_THREAD: Word := 0x0001_0000

  datatype Instr =
    | LoadWord(offset: nat)
    | JumpIfEqual(k: Word, jt: nat, jf: nat)
    | JumpIfSet(k: Word, jt: nat, jf: nat)
    | Return(k: Word)

  // Fault: a load outside the data or a program counter past the end.
  datatype Outcome = Verdict(action: Word) | Fault

  /** Runs `prog` from `pc` with accumulator `acc`; jumps only ever go forward. */
  function Run(prog: seq<Instr>, pc: nat, acc: Word, d: SeccompData): Outcome
    decreases |prog| - pc
  {
    if pc >= |prog| then Fault
    else
      match prog[pc]
      case LoadWord(off) =>
        if off % 4 == 0 && off / 4 < 16 then Run(prog, pc + 1, d[off / 4], d) else Fault
      case JumpIfEqual(k, jt, jf) =>
        Run(prog, pc + 1 + (if acc == k then jt else jf), acc, d)
      case JumpIfSet(k, jt, jf) =>
        Run(prog, pc + 1 + (if acc & k != 0 then jt else jf), acc, d)
      case Return(k) => Verdict(k)
  }

  // What the filter table is generated from; the two deny lists may have any length.
  datatype Config = Config(
    arch: Word, x86: bool,
    denyBefore: seq<Word>, tgkill: Word, pid: Word,
    denyAfter: seq<Word>, clone3: Word, clone: Word)

  function DenyBlock(numbers: seq<Word>): seq<Instr> {
    if numbers == [] then []
    else [JumpIfEqual(numbers[0], 0, 1), Return(RET_EPERM)] + DenyBlock(numbers[1..])
  }

  function ArchCheck(c: Config): seq<Instr> {
    [LoadWord(OFFSET_ARCH), JumpIfEqual(c.arch, 1, 0), Return(RET_KILL_PROCESS), LoadWord(OFFSET_NR)]
    + if c.x86 then [JumpIfSet(X32_BIT, 0, 1), Return(RET_KILL_PROCESS)] else []
  }

  function TgkillBlock(c: Config): seq<Instr> {
    [JumpIfEqual(c.tgkill, 0, 4), LoadWord(OFFSET_ARG0), JumpIfEqual(c.pid, 1, 0),
     Return(RET_EPERM), Return(RET_ALLOW)]
  }

  function CloneBlock(c: Config): seq<Instr> {
    [JumpIfEqual(c.clone3, 0, 1), Return(RET_ENOSYS),
     JumpIfEqual(c.clone, 0, 4), LoadWord(OFFSET_ARG0), JumpIfSet(CLONE_THREAD, 1, 0),
     Return(RET_EPERM), Return(RET_ALLOW), Return(RET_ALLOW)]
  }

  function Program(c: Config): seq<Instr> {
    ArchCheck(c) + DenyBlock(c.denyBefore) + TgkillBlock(c) + DenyBlock(c.denyAfter) + CloneBlock(c)
  }

  /** What the table must decide, as a chain of tests on the number and the first argument. */
  function Policy(c: Config, d: SeccompData): Word {
    var nr, arch, arg0 := d[0], d[1], d[4];
    if arch != c.arch then RET_KILL_PROCESS
    else if c.x86 && nr & X32_BIT != 0 then RET_KILL_PROCESS
    else if nr in c.denyBefore then RET_EPERM
    else if nr == c.tgkill then (if arg0 == c.pid then RET_ALLOW else RET_EPERM)
    else if nr in c.denyAfter then RET_EPERM
    else if nr == c.clone3 then RET_ENOSYS
    else if nr == c.clone then (if arg0 & CLONE_THREAD != 0 then RET_ALLOW else RET_EPERM)
    else RET_ALLOW
  }

  /** `part` sits in `prog` at position `at`. */
  ghost predicate PlacedAt(prog: seq<Instr>, at: nat, part: seq<Instr>) {
    at + |part| <= |prog| && forall i :: 0 <= i < |part| ==> prog[at + i] == part[i]
  }

  lemma {:induction false} DenyBlockLength(numbers: seq<Word>)
    ensures |DenyBlock(numbers)| == 2 * |numbers|
  {
    if numbers != [] { DenyBlockLength(numbers[1..]); }
  }

  /** A deny block of any length refuses exactly its numbers and otherwise falls through. */
  lemma {:induction false} DenyBlockDecides(
    prog: seq<Instr>, at: nat, numbers: seq<Word>, nr: Word, d: SeccompData)
    requires PlacedAt(prog, at, DenyBlock(numbers))
    ensures Run(prog, at, nr, d)
            == if nr in numbers then Verdict(RET_EPERM) else Run(prog, at + 2 * |numbers|, nr, d)
    decreases |numbers|
  {
    if numbers != [] {
      var block, rest := DenyBlock(numbers), DenyBlock(numbers[1..]);
      assert prog[at] == block[0] && prog[at + 1] == block[1];
      forall i | 0 <= i < |rest| ensures prog[at + 2 + i] == rest[i] {
        assert rest[i] == block[2 + i];
      }
      Step(prog, at, nr, d);
      Step(prog, at + 1, nr, d);
      DenyBlockDecides(prog, at + 2, numbers[1..], nr, d);
    }
  }

  /** Where each block of the generated table starts. */
  lemma Layout(c: Config, p: seq<Instr>, a: nat, t: nat, e: nat)
    requires p == Program(c) && a == |ArchCheck(c)| && t == a + 2 * |c.denyBefore| && e == t + 5 + 2 * |c.denyAfter|
    ensures PlacedAt(p, 0, ArchCheck(c)) && PlacedAt(p, a, DenyBlock(c.denyBefore))
    ensures PlacedAt(p, t, TgkillBlock(c)) && PlacedAt(p, t + 5, DenyBlock(c.denyAfter))
    ensures PlacedAt(p, e, CloneBlock(c)) && |p| == e + 8
  {
    DenyBlockLength(c.denyBefore);
    DenyBlockLength(c.denyAfter);
  }

  /** One machine step, unfolded. */
  lemma Step(prog: seq<Instr>, pc: nat, acc: Word, d: SeccompData)
    requires pc < |prog|
    ensures Run(prog, pc, acc, d)
            == match prog[pc]
               case LoadWord(off) =>
                 if off % 4 == 0 && off / 4 < 16 then Run(prog, pc + 1, d[off / 4], d) else Fault
               case JumpIfEqual(k, jt, jf) => Run(prog, pc + 1 + (if acc == k then jt else jf), acc, d)
               case JumpIfSet(k, jt, jf) => Run(prog, pc + 1 + (if acc & k != 0 then jt else jf), acc, d)
               case Return(k) => Verdict(k)
  {
  }

  lemma ArchCheckDecides(prog: seq<Instr>, c: Config, d: SeccompData)
    requires PlacedAt(prog, 0, ArchCheck(c))
    ensures Run(prog, 0, 0, d)
            == if d[1] != c.arch || (c.x86 && d[0] & X32_BIT != 0) then Verdict(RET_KILL_PROCESS)
               else Run(prog, |ArchCheck(c)|, d[0], d)
  {
    var part := ArchCheck(c);
    assert prog[0] == part[0] && prog[1] == part[1] && prog[2] == part[2] && prog[3] == part[3];
    assert c.x86 ==> prog[4] == part[4] && prog[5] == part[5];
    Step(prog, 0, 0, d);
    Step(prog, 1, d[1], d);
    Step(prog, 2, d[1], d);
    Step(prog, 3, d[1], d);
    if c.x86 { X32CheckDecides(prog, d); }
  }

  lemma X32CheckDecides(prog: seq<Instr>, d: SeccompData)
    requires PlacedAt(prog, 4, [JumpIfSet(X32_BIT, 0, 1), Return(RET_KILL_PROCESS)])
    ensures Run(prog, 4, d[0], d)
            == if d[0] & X32_BIT != 0 then Verdict(RET_KILL_PROCESS) else Run(prog, 6, d[0], d)
  {
    var part := [JumpIfSet(X32_BIT, 0, 1), Return(RET_KILL_PROCESS)];
    assert prog[4] == part[0] && prog[5] == part[1];
    Step(prog, 4, d[0], d);
    Step(prog, 5, d[0], d);
  }

  lemma TgkillBlockDecides(prog: seq<Instr>, c: Config, at: nat, nr: Word, d: SeccompData)
    requires PlacedAt(prog, at, TgkillBlock(c))
    ensures Run(prog, at, nr, d)
            == if nr != c.tgkill then Run(prog, at + 5, nr, d)
               else Verdict(if d[4] == c.pid then RET_ALLOW else RET_EPERM)
  {
    var part := TgkillBlock(c);
    assert prog[at] == part[0] && prog[at + 1] == part[1] && prog[at + 2] == part[2];
    assert prog[at + 3] == part[3] && prog[at + 4] == part[4];
    Step(prog, at, nr, d);
    Step(prog, at + 1, nr, d);
    Step(prog, at + 2, d[4], d);
    Step(prog, at + 3, d[4], d);
    Step(prog, at + 4, d[4], d);
  }

  lemma CloneBlockDecides(prog: seq<Instr>, c: Config, at: nat, nr: Word, d: SeccompData)
    requires PlacedAt(prog, at, CloneBlock(c))
    ensures Run(prog, at, nr, d)
            == Verdict(if nr == c.clone3 then RET_ENOSYS
                       else if nr == c.clone && d[4] & CLONE_THREAD == 0 then RET_EPERM
                       else RET_ALLOW)
  {
    var part := CloneBlock(c);
    assert prog[at] == part[0] && prog[at + 1] == part[1] && prog[at + 2] == part[2] && prog[at + 3] == part[3];
    assert prog[at + 4] == part[4] && prog[at + 5] == part[5] && prog[at + 6] == part[6] && prog[at + 7] == part[7];
    Step(prog, at, nr, d);
    Step(prog, at + 1, nr, d);
    Step(prog, at + 2, nr, d);
    Step(prog, at + 3, nr, d);
    Step(prog, at + 4, d[4], d);
    Step(prog, at + 5, d[4], d);
    Step(prog, at + 6, d[4], d);
    Step(prog, at + 7, nr, d);
  }

  lemma BlocksComputePolicy(prog: seq<Instr>, c: Config, d: SeccompData, a: nat, t: nat, e: nat)
    requires a == |ArchCheck(c)| && t == a + 2 * |c.denyBefore| && e == t + 5 + 2 * |c.denyAfter|
    requires PlacedAt(prog, 0, ArchCheck(c)) && PlacedAt(prog, a, DenyBlock(c.denyBefore))
    requires PlacedAt(prog, t, TgkillBlock(c)) && PlacedAt(prog, t + 5, DenyBlock(c.denyAfter))
    requires PlacedAt(prog, e, CloneBlock(c))
    ensures Run(prog, 0, 0, d) == Verdict(Policy(c, d))
  {
    ArchCheckDecides(prog, c, d);
    DenyBlockDecides(prog, a, c.denyBefore, d[0], d);
    TgkillBlockDecides(prog, c, t, d[0], d);
    DenyBlockDecides(prog, t + 5, c.denyAfter, d[0], d);
    CloneBlockDecides(prog, c, e, d[0], d);
  }

  /** Main result: the machine run on the generated table computes the policy and never faults. */
  lemma FilterComputesPolicy(c: Config, d: SeccompData)
    ensures Run(Program(c), 0, 0, d) == Verdict(Policy(c, d))
  {
    var p, a := Program(c), |ArchCheck(c)|;
    var t := a + 2 * |c.denyBefore|;
    var e := t + 5 + 2 * |c.denyAfter|;
    Layout(c, p, a, t, e);
    BlocksComputePolicy(p, c, d, a, t, e);
  }

  // ---------------------------------------------------------------- the shipped table

  datatype Syscall =
    | Socket | Socketpair | Connect | Bind | Ptrace | ProcessVmReadv | ProcessVmWritev | Kill
    | Tkill | PidfdOpen | RtSigqueueinfo | RtTgsigqueueinfo | ProcessMadvise | Tgkill
    | PidfdGetfd | PidfdSendSignal | Execve | Execveat | Mount | Umount2 | Unshare | Setns
    | Bpf | PerfEventOpen | IoUringSetup | Userfaultfd | Keyctl | AddKey | RequestKey | Capset
    | Setuid | Setgid | Setreuid | Setregid | Setresuid | Setresgid | Setfsuid | Setfsgid
    | Setgroups | Reboot | InitModule | FinitModule | DeleteModule | KexecLoad | Swapon | Swapoff
    | Syslog | Acct | Fork | Vfork | Clone3 | Clone

  const DENY_BEFORE: seq<Syscall> := [
    Socket, Socketpair, Connect, Bind, Ptrace, ProcessVmReadv, ProcessVmWritev, Kill,
    Tkill, PidfdOpen, RtSigqueueinfo, RtTgsigqueueinfo, ProcessMadvise]

  const DENY_KERNEL: seq<Syscall> := [
    PidfdGetfd, PidfdSendSignal, Execve, Execveat, Mount, Umount2, Unshare, Setns,
    Bpf, PerfEventOpen, IoUringSetup, Userfaultfd, Keyctl, AddKey, RequestKey, Capset]

  const DENY_IDENTITY: seq<Syscall> := [
    Setuid, Setgid, Setreuid, Setregid, Setresuid, Setresgid, Setfsuid, Setfsgid,
    Setgroups, Reboot, InitModule, FinitModule, DeleteModule, KexecLoad, Swapon, Swapoff,
    Syslog, Acct]

  // Listed only where the headers define SYS_fork.
  const DENY_FORK: seq<Syscall> := [Fork, Vfork]

  function Numbers<N>(names: seq<N>, number: N -> Word): (r: seq<Word>)
    ensures |r| == |names|
    ensures forall i :: 0 <= i < |names| ==> r[i] == number(names[i])
  {
    seq(|names|, i requires 0 <= i < |names| => number(names[i]))
  }

  ghost predicate Injective<N(!new)>(number: N -> Word) {
    forall s: N, s': N :: number(s) == number(s') ==> s == s'
  }

  lemma NumbersMembership<N(!new)>(names: seq<N>, number: N -> Word, s: N)
    requires Injective(number)
    ensures number(s) in Numbers(names, number) <==> s in names
  {
    if s in names {
      var i :| 0 <= i < |names| && names[i] == s;
      assert Numbers(names, number)[i] == number(s);
    }
  }

  // A table written with names, each of which the headers number.
  datatype Table<N> = Table(before: seq<N>, tgkill: N, after: seq<N>, clone3: N, clone: N)

  function Numbered<N>(t: Table<N>, arch: Word, x86: bool, pid: Word, number: N -> Word): Config {
    Config(arch, x86, Numbers(t.before, number), number(t.tgkill), pid,
           Numbers(t.after, number), number(t.clone3), number(t.clone))
  }

  /** The three calls with rules of their own are different and on no list. */
  ghost predicate Separate<N>(t: Table<N>) {
    && t.tgkill != t.clone3 && t.tgkill != t.clone && t.clone3 != t.clone
    && t.tgkill !in t.before && t.clone3 !in t.before && t.clone !in t.before
    && t.tgkill !in t.after && t.clone3 !in t.after && t.clone !in t.after
  }

  function NamedPolicy<N(==)>(t: Table<N>, pid: Word, s: N, arg0: Word): Word {
    if s == t.tgkill then (if arg0 == pid then RET_ALLOW else RET_EPERM)
    else if s == t.clone3 then RET_ENOSYS
    else if s == t.clone then (if arg0 & CLONE_THREAD != 0 then RET_ALLOW else RET_EPERM)
    else if s in t.before || s in t.after then RET_EPERM
    else RET_ALLOW
  }

  /**
   The verdict on every native call, by name: whatever distinct numbers the headers assign, a
   call is refused exactly when its name is listed, apart from the three calls with rules of
   their own.
   */
  lemma NamedVerdict<N(!new)>(t: Table<N>, arch: Word, x86: bool, pid: Word, number: N -> Word,
                              s: N, d: SeccompData)
    requires Injective(number) && Separate(t)
    requires d[0] == number(s) && d[1] == arch && (x86 ==> number(s) & X32_BIT == 0)
    ensures Run(Program(Numbered(t, arch, x86, pid, number)), 0, 0, d)
            == Verdict(NamedPolicy(t, pid, s, d[4]))
  {
    var c := Numbered(t, arch, x86, pid, number);
    FilterComputesPolicy(c, d);
    NumbersMembership(t.before, number, s);
    NumbersMembership(t.after, number, s);
    assert s == t.tgkill <==> d[0] == c.tgkill;
    assert s == t.clone3 <==> d[0] == c.clone3;
    assert s == t.clone <==> d[0] == c.clone;
  }

  function Shipped(hasFork: bool): Table<Syscall> {
    Table(DENY_BEFORE, Tgkill, DENY_KERNEL + DENY_IDENTITY + (if hasFork then DENY_FORK else []),
          Clone3, Clone)
  }

  predicate HasOwnRule(s: Syscall) {
    s == Tgkill || s == Clone3 || s == Clone
  }

  lemma NotDeniedBefore(s: Syscall)
    requires HasOwnRule(s)
    ensures s !in DENY_BEFORE
  {
  }

  lemma NotDeniedKernel(s: Syscall)
    requires HasOwnRule(s)
    ensures s !in DENY_KERNEL
  {
  }

  lemma NotDeniedIdentity(s: Syscall)
    requires HasOwnRule(s)
    ensures s !in DENY_IDENTITY
  {
  }

  lemma ShippedIsSeparate(hasFork: bool)
    ensures Separate(Shipped(hasFork))
  {
    forall s | HasOwnRule(s) ensures s !in Shipped(hasFork).before && s !in Shipped(hasFork).after {
      NotDeniedBefore(s);
      NotDeniedKernel(s);
      NotDeniedIdentity(s);
      assert s !in DENY_FORK;
    }
  }

  /** The shipped table gives every named call the verdict its lists and rules announce. */
  lemma ShippedVerdict(hasFork: bool, arch: Word, x86: bool, pid: Word, number: Syscall -> Word,
                       s: Syscall, d: SeccompData)
    requires Injective(number)
    requires d[0] == number(s) && d[1] == arch && (x86 ==> number(s) & X32_BIT == 0)
    ensures Run(Program(Numbered(Shipped(hasFork), arch, x86, pid, number)), 0, 0, d)
            == Verdict(NamedPolicy(Shipped(hasFork), pid, s, d[4]))
  {
    ShippedIsSeparate(hasFork);
    NamedVerdict(Shipped(hasFork), arch, x86, pid, number, s, d);
  }

  // ---------------------------------------------------------------- verdicts as the kernel reads them

  // What a process sees of a verdict: it dies, the call goes through, or fails with an error number.
  datatype Decision = Dies | GoesThrough | Fails(errno: Word) | Unknown

  /** The upper half of a verdict names the action, the lower half is its data. */
  function Decoded(o: Outcome): Decision {
    if o.Fault? then Unknown
    else
      var action, data := o.action & 0xffff_0000, o.action & 0xffff;
      if action == 0x8000_0000 then Dies
      else if action == 0x7fff_0000 then GoesThrough
      else if action == 0x0005_0000 then Fails(data)
      else Unknown
  }

  lemma VerdictsDecode()
    ensures Decoded(Verdict(RET_KILL_PROCESS)) == Dies && Decoded(Verdict(RET_ALLOW)) == GoesThrough
    ensures Decoded(Verdict(RET_EPERM)) == Fails(1) && Decoded(Verdict(RET_ENOSYS)) == Fails(38)
  {
  }

  lemma OthersAreDenied(s: Syscall)
    requires !HasOwnRule(s) && s != Fork && s != Vfork
    ensures s in DENY_BEFORE || s in DENY_KERNEL || s in DENY_IDENTITY
  {
  }

  lemma ForksAreListedLast(s: Syscall)
    requires s == Fork || s == Vfork
    ensures s !in DENY_BEFORE && s !in DENY_KERNEL && s !in DENY_IDENTITY && s in DENY_FORK
  {
  }

  lemma ShippedDenies(hasFork: bool, s: Syscall)
    requires !HasOwnRule(s)
    ensures (s in Shipped(hasFork).before || s in Shipped(hasFork).after) <==> hasFork || (s != Fork && s != Vfork)
  {
    if s == Fork || s == Vfork { ForksAreListedLast(s); } else { OthersAreDenied(s); }
  }

  /** What becomes of a named call with the given first argument. */
  function Promised(hasFork: bool, pid: Word, s: Syscall, arg0: Word): Decision {
    match s
    case Tgkill => if arg0 == pid then GoesThrough else Fails(1)
    case Clone => if arg0 & 0x1_0000 != 0 then GoesThrough else Fails(1)
    case Clone3 => Fails(38)
    case Fork => if hasFork then Fails(1) else GoesThrough
    case Vfork => if hasFork then Fails(1) else GoesThrough
    case _ => Fails(1)
  }

  lemma PolicyDecodes(t: Table<Syscall>, hasFork: bool, pid: Word, s: Syscall, arg0: Word)
    requires t.tgkill == Tgkill && t.clone3 == Clone3 && t.clone == Clone
    requires !HasOwnRule(s) ==> ((s in t.before || s in t.after) <==> hasFork || (s != Fork && s != Vfork))
    ensures Decoded(Verdict(NamedPolicy(t, pid, s, arg0))) == Promised(hasFork, pid, s, arg0)
  {
    VerdictsDecode();
    if !HasOwnRule(s) {
      PromisedElsewhere(hasFork, pid, s, arg0);
      PolicyElsewhere(t, pid, s, arg0);
    }
  }

  lemma PromisedElsewhere(hasFork: bool, pid: Word, s: Syscall, arg0: Word)
    requires !HasOwnRule(s)
    ensures Promised(hasFork, pid, s, arg0) == if hasFork || (s != Fork && s != Vfork) then Fails(1) else GoesThrough
  {
  }

  lemma PolicyElsewhere(t: Table<Syscall>, pid: Word, s: Syscall, arg0: Word)
    requires t.tgkill == Tgkill && t.clone3 == Clone3 && t.clone == Clone && !HasOwnRule(s)
    ensures NamedPolicy(t, pid, s, arg0) == if s in t.before || s in t.after then RET_EPERM else RET_ALLOW
  {
  }

  /**
   Main result: of the calls that the source names, signals to another process, a new process and all
   that have no rule of their own fail with EPERM (1), clone3 fails with ENOSYS (38), and a signal to
   the process itself and a new thread go through; fork and vfork fail wherever the headers have them.
   */
  lemma ShippedDecision(hasFork: bool, arch: Word, x86: bool, pid: Word, number: Syscall -> Word,
                        s: Syscall, d: SeccompData)
    requires Injective(number)
    requires d[0] == number(s) && d[1] == arch && (x86 ==> number(s) & 0x4000_0000 == 0)
    ensures Decoded(Run(Program(Numbered(Shipped(hasFork), arch, x86, pid, number)), 0, 0, d))
            == Promised(hasFork, pid, s, d[4])
  {
    ShippedVerdict(hasFork, arch, x86, pid, number, s, d);
    if !HasOwnRule(s) { ShippedDenies(hasFork, s); }
    PolicyDecodes(Shipped(hasFork), hasFork, pid, s, d[4]);
  }

  /** Any other call goes through; another architecture or the x32 interface is fatal. */
  lemma UnnamedDecision(hasFork: bool, arch: Word, x86: bool, pid: Word, number: Syscall -> Word, d: SeccompData)
    requires forall s :: d[0] != number(s)
    ensures Decoded(Run(Program(Numbered(Shipped(hasFork), arch, x86, pid, number)), 0, 0, d))
            == if d[1] != arch || (x86 && d[0] & 0x4000_0000 != 0) then Dies else GoesThrough
  {
    VerdictsDecode();
    var c := Numbered(Shipped(hasFork), arch, x86, pid, number);
    FilterComputesPolicy(c, d);
  }

  /** So they are for named calls. */
  lemma ForeignDecision(hasFork: bool, arch: Word, x86: bool, pid: Word, number: Syscall -> Word, d: SeccompData)
    requires d[1] != arch || (x86 && d[0] & 0x4000_0000 != 0)
    ensures Decoded(Run(Program(Numbered(Shipped(hasFork), arch, x86, pid, number)), 0, 0, d)) == Dies
  {
    VerdictsDecode();
    FilterComputesPolicy(Numbered(Shipped(hasFork), arch, x86, pid, number), d);
  }
}
