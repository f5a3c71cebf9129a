/** The two seccomp filters as compiled classic-BPF programs, and an interpreter
    for the instructions they use. */
module Seccomp {
  import opened Options

  type Word = bv32

  datatype Field = Arch | Nr | Arg0

  /** Jump offsets are relative to the next instruction. */
  datatype Insn =
    | Load(field: Field)
    | JumpEq(k: Word, jt: nat, jf: nat)
    | JumpSet(k: Word, jt: nat, jf: nat)
    | Ret(action: Action)

  datatype Action = KillProcess | Errno(code: nat) | Allow

  const EPERM: nat := 1
  const ENOSYS: nat := 38
  const AUDIT_ARCH_X86_64: Word := 0xC000003E

  /** `arg0` is the low word of the first argument, which is what a 32-bit
      absolute load at offsetof(args[0]) reads on a little-endian machine. */
  datatype SeccompData = SeccompData(arch: Word, nr: Word, arg0: Word)

  type Program = seq<Insn>

  /** None when control runs off the program. */
  function Run(prog: Program, pc: nat, acc: Word, d: SeccompData): (r: Option<Action>)
    decreases |prog| - pc
  {
    if pc >= |prog| then None else
      match prog[pc]
      case Load(Arch) => Run(prog, pc + 1, d.arch, d)
      case Load(Nr) => Run(prog, pc + 1, d.nr, d)
      case Load(Arg0) => Run(prog, pc + 1, d.arg0, d)
      case JumpEq(k, jt, jf) => Run(prog, pc + 1 + (if acc == k then jt else jf), acc, d)
      case JumpSet(k, jt, jf) => Run(prog, pc + 1 + (if acc & k != 0 then jt else jf), acc, d)
      case Ret(action) => Some(action)
  }

  datatype Rule = Rule(nr: Word, action: Action)

  /** Each rule is the two instructions of the DENY, ABSENT and ALLOW macros. */
  function Chain(rules: seq<Rule>): (r: Program)
    ensures |r| == 2 * |rules|
  {
    if rules == [] then []
    else [JumpEq(rules[0].nr, 0, 1), Ret(rules[0].action)] + Chain(rules[1..])
  }

  const ARCH_GUARD: Program :=
    [Load(Arch), JumpEq(AUDIT_ARCH_X86_64, 1, 0), Ret(KillProcess), Load(Nr)]

  function CloneGuard(clone: Word, forbidden: Word): Program {
    [JumpEq(clone, 0, 3), Load(Arg0), JumpSet(forbidden, 0, 1), Ret(Errno(EPERM)), Load(Nr)]
  }

  /** install_reviewed_bash_seccomp */
  function ReviewedBashFilter(clone: Word, forbidden: Word, rules: seq<Rule>): Program {
    ARCH_GUARD + CloneGuard(clone, forbidden) + Chain(rules) + [Ret(Allow)]
  }

  /** install_child_seccomp */
  function FixedScenarioFilter(rules: seq<Rule>): Program {
    ARCH_GUARD + Chain(rules) + [Ret(KillProcess)]
  }

  // ---------- what the programs decide ----------

  predicate FirstMatch(rules: seq<Rule>, nr: Word, i: nat) {
    i < |rules| && rules[i].nr == nr && forall j :: 0 <= j < i ==> rules[j].nr != nr
  }

  /** `action` is the first matching rule's, or `default` when none matches. */
  ghost predicate Verdict(rules: seq<Rule>, default: Action, nr: Word, action: Action) {
    if exists i :: 0 <= i < |rules| && rules[i].nr == nr
    then exists i: nat :: FirstMatch(rules, nr, i) && action == rules[i].action
    else action == default
  }

  /** Started at any suffix that is a chain closed by its default, with the
      system call number loaded, the interpreter returns the chain's verdict. */
  lemma {:induction false} ChainVerdict(prog: Program, pc: nat, rules: seq<Rule>, default: Action, d: SeccompData)
    requires pc <= |prog| && prog[pc..] == Chain(rules) + [Ret(default)]
    ensures var r := Run(prog, pc, d.nr, d); r.Some? && Verdict(rules, default, d.nr, r.value)
    decreases |rules|
  {
    if rules == [] {
      assert prog[pc] == prog[pc..][0] == Ret(default);
    } else {
      var head := rules[0];
      assert prog[pc] == prog[pc..][0] && prog[pc + 1] == prog[pc..][1];
      if head.nr == d.nr {
        assert FirstMatch(rules, d.nr, 0);
      } else {
        var rest := rules[1..];
        assert prog[pc + 2..] == prog[pc..][2..] == Chain(rest) + [Ret(default)];
        ChainVerdict(prog, pc + 2, rest, default, d);
        var action := Run(prog, pc + 2, d.nr, d).value;
        if i :| 0 <= i < |rest| && rest[i].nr == d.nr {
          assert rules[i + 1].nr == d.nr;
          var f: nat :| FirstMatch(rest, d.nr, f) && action == rest[f].action;
          assert FirstMatch(rules, d.nr, f + 1);
        } else {
          assert forall i :: 1 <= i < |rules| ==> rules[i] == rest[i - 1];
        }
      }
    }
  }

  /** The guard shared by both filters. */
  lemma ArchGuardRuns(prog: Program, d: SeccompData)
    requires |prog| >= 4 && prog[..4] == ARCH_GUARD
    ensures Run(prog, 0, 0, d) ==
            if d.arch == AUDIT_ARCH_X86_64 then Run(prog, 4, d.nr, d) else Some(KillProcess)
  {
    forall i | 0 <= i < 4 ensures prog[i] == ARCH_GUARD[i] {
      assert prog[..4][i] == prog[i];
    }
    assert Run(prog, 0, 0, d) == Run(prog, 1, d.arch, d);
    if d.arch == AUDIT_ARCH_X86_64 {
      assert Run(prog, 1, d.arch, d) == Run(prog, 3, d.arch, d);
    } else {
      assert Run(prog, 1, d.arch, d) == Run(prog, 2, d.arch, d);
    }
  }

  /** Past the clone guard the system call number is loaded again. */
  lemma CloneGuardRuns(prog: Program, clone: Word, forbidden: Word, d: SeccompData)
    requires |prog| >= 9 && prog[4..9] == CloneGuard(clone, forbidden)
    ensures Run(prog, 4, d.nr, d) ==
            if d.nr == clone && d.arg0 & forbidden != 0 then Some(Errno(EPERM)) else Run(prog, 9, d.nr, d)
  {
    var guard := prog[4..9];
    assert prog[4] == guard[0] && prog[5] == guard[1] && prog[6] == guard[2] && prog[7] == guard[3] && prog[8] == guard[4];
    if d.nr != clone {
      assert Run(prog, 4, d.nr, d) == Run(prog, 8, d.nr, d);
    } else {
      assert Run(prog, 4, d.nr, d) == Run(prog, 5, d.nr, d) == Run(prog, 6, d.arg0, d);
      if d.arg0 & forbidden != 0 {
        assert Run(prog, 6, d.arg0, d) == Run(prog, 7, d.arg0, d);
      } else {
        assert Run(prog, 6, d.arg0, d) == Run(prog, 8, d.arg0, d);
      }
    }
  }

  lemma ReviewedBashVerdict(clone: Word, forbidden: Word, rules: seq<Rule>, d: SeccompData)
    ensures var r := Run(ReviewedBashFilter(clone, forbidden, rules), 0, 0, d);
            && r.Some?
            && (if d.arch != AUDIT_ARCH_X86_64 then r.value == KillProcess
                else if d.nr == clone && d.arg0 & forbidden != 0 then r.value == Errno(EPERM)
                else Verdict(rules, Allow, d.nr, r.value))
  {
    var prog := ReviewedBashFilter(clone, forbidden, rules);
    assert prog[..4] == ARCH_GUARD;
    assert prog[4..9] == CloneGuard(clone, forbidden);
    assert prog[9..] == Chain(rules) + [Ret(Allow)];
    ArchGuardRuns(prog, d);
    CloneGuardRuns(prog, clone, forbidden, d);
    ChainVerdict(prog, 9, rules, Allow, d);
  }

  lemma FixedScenarioVerdict(rules: seq<Rule>, d: SeccompData)
    ensures var r := Run(FixedScenarioFilter(rules), 0, 0, d);
            && r.Some?
            && (if d.arch != AUDIT_ARCH_X86_64 then r.value == KillProcess
                else Verdict(rules, KillProcess, d.nr, r.value))
  {
    var prog := FixedScenarioFilter(rules);
    assert prog[..4] == ARCH_GUARD;
    assert prog[4..] == Chain(rules) + [Ret(KillProcess)];
    ArchGuardRuns(prog, d);
    ChainVerdict(prog, 4, rules, KillProcess, d);
  }

  // ---------- the forbidden clone flags ----------

  datatype CloneFlag = NewCgroup | NewIpc | NewNet | NewNs | NewPid | NewUser | NewUts | Traced | Untraced

  /** The flags whose union is the mask. */
  datatype Flags = NoFlags | With(flag: CloneFlag, rest: Flags)

  const FORBIDDEN_FLAGS: Flags :=
    With(NewCgroup, With(NewIpc, With(NewNet, With(NewNs, With(NewPid, With(NewUser, With(NewUts, With(Traced,
    With(Untraced, NoFlags)))))))))

  function Mask(bits: CloneFlag -> Word, fs: Flags): Word {
    match fs
    case NoFlags => 0
    case With(flag, rest) => bits(flag) | Mask(bits, rest)
  }

  predicate Has(fs: Flags, f: CloneFlag) {
    fs.With? && (fs.flag == f || Has(fs.rest, f))
  }

  predicate Meets(x: Word, mask: Word) {
    x & mask != 0
  }

  lemma Distributes(x: Word, a: Word, b: Word)
    ensures x & (a | b) == (x & a) | (x & b)
  {
  }

  lemma OrNonzero(p: Word, q: Word)
    ensures p | q == 0 <==> p == 0 && q == 0
  {
  }

  lemma MeetsEither(x: Word, a: Word, b: Word, both: Word)
    requires both == a | b
    ensures Meets(x, both) <==> Meets(x, a) || Meets(x, b)
  {
    Distributes(x, a, b);
    OrNonzero(x & a, x & b);
  }

  predicate MeetsSome(x: Word, bits: CloneFlag -> Word, fs: Flags) {
    fs.With? && (Meets(x, bits(fs.flag)) || MeetsSome(x, bits, fs.rest))
  }

  /** Testing the mask of some flags is testing for at least one of them. */
  lemma {:induction false} MaskMeetsSomeFlag(x: Word, bits: CloneFlag -> Word, fs: Flags)
    ensures Meets(x, Mask(bits, fs)) <==> MeetsSome(x, bits, fs)
  {
    match fs
    case NoFlags =>
    case With(flag, rest) =>
      MaskMeetsSomeFlag(x, bits, rest);
      MeetsEither(x, bits(flag), Mask(bits, rest), Mask(bits, fs));
  }

  lemma {:induction false} SomeFlagIsMet(x: Word, bits: CloneFlag -> Word, fs: Flags)
    ensures MeetsSome(x, bits, fs) <==> exists f :: Has(fs, f) && Meets(x, bits(f))
  {
    if fs.With? {
      SomeFlagIsMet(x, bits, fs.rest);
    }
  }

  lemma EveryFlagIsForbidden(f: CloneFlag)
    ensures Has(FORBIDDEN_FLAGS, f)
  {
  }

  // ---------- the reviewed policy by name ----------

  /** No network endpoint or message transport. */
  datatype NetworkCall =
    | Socket | Socketpair | Connect | Accept | Accept4 | Bind | Listen | Sendto | Recvfrom | Sendmsg | Recvmsg
    | Shutdown | Getsockname | Getpeername | Setsockopt | Getsockopt | Recvmmsg | Sendmmsg

  const NETWORK_CALLS: seq<NetworkCall> :=
    [Socket, Socketpair, Connect, Accept, Accept4, Bind, Listen, Sendto, Recvfrom, Sendmsg, Recvmsg, Shutdown,
     Getsockname, Getpeername, Setsockopt, Getsockopt, Recvmmsg, Sendmmsg]

  /** No namespace, mount, filesystem-server or device administration. */
  datatype MountCall =
    | Unshare | Setns | Mount | Umount2 | PivotRoot | Chroot | Mknod | Mknodat | Swapon | Swapoff | Quotactl
    | Acct | OpenTree | MoveMount | Fsopen | Fsconfig | Fsmount | Fspick | MountSetattr | OpenByHandleAt
    | NameToHandleAt | FanotifyInit | FanotifyMark

  const MOUNT_CALLS: seq<MountCall> :=
    [Unshare, Setns, Mount, Umount2, PivotRoot, Chroot, Mknod, Mknodat, Swapon, Swapoff, Quotactl, Acct,
     OpenTree, MoveMount, Fsopen, Fsconfig, Fsmount, Fspick, MountSetattr, OpenByHandleAt, NameToHandleAt,
     FanotifyInit, FanotifyMark]

  /** No credentials, host identity or privileged clocks. */
  datatype CredentialCall =
    | Setuid | Setgid | Setreuid | Setregid | Setresuid | Setresgid | Setfsuid | Setfsgid | Setgroups | Capset
    | Sethostname | Setdomainname | Settimeofday | Adjtimex | ClockSettime | ClockAdjtime

  const CREDENTIAL_CALLS: seq<CredentialCall> :=
    [Setuid, Setgid, Setreuid, Setregid, Setresuid, Setresgid, Setfsuid, Setfsgid, Setgroups, Capset,
     Sethostname, Setdomainname, Settimeofday, Adjtimex, ClockSettime, ClockAdjtime]

  /** No kernel extension, tracing, cross-process memory or raw I/O. */
  datatype KernelCall =
    | Ptrace | ProcessVmReadv | ProcessVmWritev | Kcmp | Bpf | PerfEventOpen | Userfaultfd | AddKey | RequestKey
    | Keyctl | InitModule | FinitModule | DeleteModule | KexecLoad | KexecFileLoad | Reboot | Iopl | Ioperm
    | Syslog | Personality | PidfdGetfd | PidfdSendSignal | ProcessMadvise | ProcessMrelease | IoUringSetup
    | IoUringEnter | IoUringRegister | MemfdCreate | Execveat

  const KERNEL_CALLS: seq<KernelCall> :=
    [Ptrace, ProcessVmReadv, ProcessVmWritev, Kcmp, Bpf, PerfEventOpen, Userfaultfd, AddKey, RequestKey,
     Keyctl, InitModule, FinitModule, DeleteModule, KexecLoad, KexecFileLoad, Reboot, Iopl, Ioperm, Syslog,
     Personality, PidfdGetfd, PidfdSendSignal, ProcessMadvise, ProcessMrelease, IoUringSetup, IoUringEnter,
     IoUringRegister, MemfdCreate, Execveat]

  datatype Syscall =
    | Clone | Clone3 | Network(net: NetworkCall) | Mounting(mount: MountCall) | Credentials(cred: CredentialCall)
    | Kernel(kern: KernelCall)

  lemma EveryNetworkCall(s: NetworkCall)
    ensures s in NETWORK_CALLS
  {
  }

  lemma EveryMountCall(s: MountCall)
    ensures s in MOUNT_CALLS
  {
  }

  lemma EveryCredentialCall(s: CredentialCall)
    ensures s in CREDENTIAL_CALLS
  {
  }

  lemma EveryKernelCall(s: KernelCall)
    ensures s in KERNEL_CALLS
  {
  }

  function Refused(ns: seq<NetworkCall>, ms: seq<MountCall>, cs: seq<CredentialCall>, ks: seq<KernelCall>): seq<Syscall> {
    seq(|ns|, i requires 0 <= i < |ns| => Network(ns[i])) + seq(|ms|, i requires 0 <= i < |ms| => Mounting(ms[i])) +
    seq(|cs|, i requires 0 <= i < |cs| => Credentials(cs[i])) + seq(|ks|, i requires 0 <= i < |ks| => Kernel(ks[i]))
  }

  lemma RefusedMembers(ns: seq<NetworkCall>, ms: seq<MountCall>, cs: seq<CredentialCall>, ks: seq<KernelCall>, s: Syscall)
    ensures s in Refused(ns, ms, cs, ks) <==>
              match s
              case Network(n) => n in ns
              case Mounting(m) => m in ms
              case Credentials(c) => c in cs
              case Kernel(k) => k in ks
              case _ => false
  {
    var all := Refused(ns, ms, cs, ks);
    match s
    case Network(n) => if i :| 0 <= i < |ns| && ns[i] == n { assert all[i] == s; }
    case Mounting(m) => if i :| 0 <= i < |ms| && ms[i] == m { assert all[|ns| + i] == s; }
    case Credentials(c) => if i :| 0 <= i < |cs| && cs[i] == c { assert all[|ns| + |ms| + i] == s; }
    case Kernel(k) => if i :| 0 <= i < |ks| && ks[i] == k { assert all[|ns| + |ms| + |cs| + i] == s; }
    case _ =>
  }

  /** The system calls refused with EPERM, in filter order. */
  function Denied(): seq<Syscall> {
    Refused(NETWORK_CALLS, MOUNT_CALLS, CREDENTIAL_CALLS, KERNEL_CALLS)
  }

  /** Nothing named is missing: only the two clones are not refused outright. */
  lemma AllButClonesAreDenied(s: Syscall)
    ensures s in Denied() <==> s != Clone && s != Clone3
  {
    RefusedMembers(NETWORK_CALLS, MOUNT_CALLS, CREDENTIAL_CALLS, KERNEL_CALLS, s);
    match s
    case Network(n) => EveryNetworkCall(n);
    case Mounting(m) => EveryMountCall(m);
    case Credentials(c) => EveryCredentialCall(c);
    case Kernel(k) => EveryKernelCall(k);
    case _ =>
  }

  function Denials(number: Syscall -> Word, names: seq<Syscall>): (r: seq<Rule>)
    ensures |r| == |names| && forall i :: 0 <= i < |names| ==> r[i] == Rule(number(names[i]), Errno(EPERM))
  {
    seq(|names|, i requires 0 <= i < |names| => Rule(number(names[i]), Errno(EPERM)))
  }

  /** What the filter does with a call, by name, given whether its first argument
      carries a forbidden clone flag; any other number is allowed. */
  ghost predicate PolicyHolds(number: Syscall -> Word, names: seq<Syscall>, forbidden: bool, nr: Word, r: Option<Action>) {
    && (nr == number(Clone) ==> r == Some(if forbidden then Errno(EPERM) else Allow))
    && (nr == number(Clone3) ==> r == Some(Errno(ENOSYS)))
    && (forall s :: s in names && nr == number(s) ==> r == Some(Errno(EPERM)))
    && ((forall s :: s in [Clone, Clone3] + names ==> nr != number(s)) ==> r == Some(Allow))
  }

  ghost predicate RulesOf(number: Syscall -> Word, names: seq<Syscall>, rules: seq<Rule>) {
    && |rules| == |names| + 1 && rules[0] == Rule(number(Clone3), Errno(ENOSYS))
    && forall i :: 1 <= i < |rules| ==> rules[i] == Rule(number(names[i - 1]), Errno(EPERM))
  }

  /** The verdict of the chain alone: clone is in no rule. */
  lemma PolicyVerdict(number: Syscall -> Word, names: seq<Syscall>, rules: seq<Rule>, nr: Word, action: Action)
    requires forall s, t :: number(s) == number(t) ==> s == t
    requires Clone !in names && Clone3 !in names && RulesOf(number, names, rules)
    requires Verdict(rules, Allow, nr, action)
    ensures PolicyHolds(number, names, false, nr, Some(action))
  {
    if exists i: nat :: FirstMatch(rules, nr, i) && action == rules[i].action {
      var i: nat :| FirstMatch(rules, nr, i) && action == rules[i].action;
      if i > 0 {
        assert names[i - 1] in names && nr == number(names[i - 1]);
      } else {
        assert Clone3 in [Clone, Clone3] + names && nr == number(Clone3);
      }
    } else {
      forall s | s in names ensures nr != number(s) {
        var k :| 0 <= k < |names| && names[k] == s;
        assert rules[k + 1].nr != nr;
      }
    }
  }

  lemma DenialsAreRules(number: Syscall -> Word, names: seq<Syscall>)
    ensures RulesOf(number, names, [Rule(number(Clone3), Errno(ENOSYS))] + Denials(number, names))
  {
  }

  lemma PolicyFromVerdict(number: Syscall -> Word, names: seq<Syscall>, rules: seq<Rule>, forbidden: bool, nr: Word,
                          r: Option<Action>)
    requires forall s, t :: number(s) == number(t) ==> s == t
    requires Clone !in names && Clone3 !in names && RulesOf(number, names, rules) && r.Some?
    requires if nr == number(Clone) && forbidden then r.value == Errno(EPERM) else Verdict(rules, Allow, nr, r.value)
    ensures PolicyHolds(number, names, forbidden, nr, r)
  {
    if nr == number(Clone) && forbidden {
      assert Clone in [Clone, Clone3] + names;
    } else {
      PolicyVerdict(number, names, rules, nr, r.value);
    }
  }

  /** `names` is `Denied()` or whatever part of it the kernel headers define; the
      numbers come from those headers too, and all the policy needs of them is
      that distinct calls have distinct numbers. */
  lemma ReviewedPolicy(number: Syscall -> Word, names: seq<Syscall>, forbidden: Word, d: SeccompData)
    requires forall s, t :: number(s) == number(t) ==> s == t
    requires Clone !in names && Clone3 !in names && d.arch == AUDIT_ARCH_X86_64
    ensures var rules := [Rule(number(Clone3), Errno(ENOSYS))] + Denials(number, names);
            PolicyHolds(number, names, Meets(d.arg0, forbidden), d.nr,
                        Run(ReviewedBashFilter(number(Clone), forbidden, rules), 0, 0, d))
  {
    var rules := [Rule(number(Clone3), Errno(ENOSYS))] + Denials(number, names);
    DenialsAreRules(number, names);
    ReviewedBashVerdict(number(Clone), forbidden, rules, d);
    PolicyFromVerdict(number, names, rules, Meets(d.arg0, forbidden), d.nr,
                      Run(ReviewedBashFilter(number(Clone), forbidden, rules), 0, 0, d));
  }

  lemma PolicyByName(number: Syscall -> Word, bits: CloneFlag -> Word, denied: seq<Syscall>, flags: Flags, d: SeccompData)
    requires forall s, t :: number(s) == number(t) ==> s == t
    requires d.arch == AUDIT_ARCH_X86_64
    requires forall s :: s in denied <==> s != Clone && s != Clone3
    ensures var rules := [Rule(number(Clone3), Errno(ENOSYS))] + Denials(number, denied);
            var r := Run(ReviewedBashFilter(number(Clone), Mask(bits, flags), rules), 0, 0, d);
            && (d.nr == number(Clone) ==> r == Some(if MeetsSome(d.arg0, bits, flags) then Errno(EPERM) else Allow))
            && (d.nr == number(Clone3) ==> r == Some(Errno(ENOSYS)))
            && (forall s :: s != Clone && s != Clone3 && d.nr == number(s) ==> r == Some(Errno(EPERM)))
            && ((forall s :: d.nr != number(s)) ==> r == Some(Allow))
  {
    ReviewedPolicy(number, denied, Mask(bits, flags), d);
    MaskMeetsSomeFlag(d.arg0, bits, flags);
  }

  /** The policy as written, on the machine it is for: a clone with one of the nine
      forbidden flags and every other named call get EPERM, clone3 ENOSYS, and all
      else is allowed. */
  lemma ReviewedPolicyAsWritten(number: Syscall -> Word, bits: CloneFlag -> Word, d: SeccompData)
    requires forall s, t :: number(s) == number(t) ==> s == t
    requires d.arch == AUDIT_ARCH_X86_64
    ensures var rules := [Rule(number(Clone3), Errno(ENOSYS))] + Denials(number, Denied());
            var r := Run(ReviewedBashFilter(number(Clone), Mask(bits, FORBIDDEN_FLAGS), rules), 0, 0, d);
            && (d.nr == number(Clone) ==> r == Some(if exists f :: Meets(d.arg0, bits(f)) then Errno(EPERM) else Allow))
            && (d.nr == number(Clone3) ==> r == Some(Errno(ENOSYS)))
            && (forall s :: s != Clone && s != Clone3 && d.nr == number(s) ==> r == Some(Errno(EPERM)))
            && ((forall s :: d.nr != number(s)) ==> r == Some(Allow))
  {
    var denied, flags := Denied(), FORBIDDEN_FLAGS;
    forall s ensures s in denied <==> s != Clone && s != Clone3 {
      AllButClonesAreDenied(s);
    }
    forall f ensures Has(flags, f) {
      EveryFlagIsForbidden(f);
    }
    SomeFlagIsMet(d.arg0, bits, flags);
    PolicyByName(number, bits, denied, flags, d);
  }

  // ---------- the fixed-scenario allowlist by name ----------

  datatype ScenarioCall = Read | Write | Close | Exit | ExitGroup | RtSigreturn | RtSigprocmask | CloneCall | Pipe2
    | Setsid | Nanosleep | ClockNanosleep | Pause | RestartSyscall

  const SCENARIO_CALLS: seq<ScenarioCall> :=
    [Read, Write, Close, Exit, ExitGroup, RtSigreturn, RtSigprocmask, CloneCall, Pipe2, Setsid, Nanosleep,
     ClockNanosleep, Pause, RestartSyscall]

  function Allowances(number: ScenarioCall -> Word, names: seq<ScenarioCall>): (r: seq<Rule>)
    ensures |r| == |names| && forall i :: 0 <= i < |names| ==> r[i] == Rule(number(names[i]), Allow)
  {
    seq(|names|, i requires 0 <= i < |names| => Rule(number(names[i]), Allow))
  }

  lemma AllowedVerdict(number: ScenarioCall -> Word, names: seq<ScenarioCall>, nr: Word, action: Action)
    requires Verdict(Allowances(number, names), KillProcess, nr, action)
    ensures action == if exists s :: s in names && nr == number(s) then Allow else KillProcess
  {
    var rules := Allowances(number, names);
    if s :| s in names && nr == number(s) {
      var k :| 0 <= k < |names| && names[k] == s;
      assert rules[k].nr == nr;
    } else if i :| 0 <= i < |rules| && rules[i].nr == nr {
      assert names[i] in names;
    }
  }

  lemma EveryScenarioCallIsListed(s: ScenarioCall)
    ensures s in SCENARIO_CALLS
  {
  }

  /** A scenario child may make the fourteen calls and dies at any other. */
  lemma ScenarioPolicy(number: ScenarioCall -> Word, d: SeccompData)
    requires d.arch == AUDIT_ARCH_X86_64
    ensures Run(FixedScenarioFilter(Allowances(number, SCENARIO_CALLS)), 0, 0, d) ==
            Some(if exists s :: d.nr == number(s) then Allow else KillProcess)
  {
    var rules := Allowances(number, SCENARIO_CALLS);
    FixedScenarioVerdict(rules, d);
    AllowedVerdict(number, SCENARIO_CALLS, d.nr, Run(FixedScenarioFilter(rules), 0, 0, d).value);
    forall s ensures s in SCENARIO_CALLS {
      EveryScenarioCallIsListed(s);
    }
  }
}
