/**
 * lib/fork.c: the user-level copy-on-write page fault handler, duppage,
 * fork and sfork, as methods running in the current environment of a
 * Kernel and proved against the functions of ForkSpec.
 *
 * A `panic` ends the method with Panicked; the state it leaves is the
 * state at the failing call.
 */
module ForkLib {
  import opened Base
  import opened Mmu
  import opened AddrSpace
  import opened Syscall
  import opened ForkSpec

  /**
   * pgfault: resolve a write fault on a copy-on-write page by copying it
   * to a fresh frame through PFTEMP and mapping the copy writable in its
   * place. Anything else panics with nothing changed.
   */
  method Pgfault(k: Kernel, faultVa: nat, err: bv32) returns (o: Outcome<()>)
    requires k.Valid()
    modifies k
    ensures k.Valid()
    ensures k.curenv == old(k.curenv) && k.EnvPool() == old(k.EnvPool())
    ensures o.Panicked? <==> !CowWriteFault(old(k.envs)[k.curenv], faultVa, err) || old(k.freePages) == 0
    ensures o.Panicked? ==> k.envs == old(k.envs) && k.frames == old(k.frames) && k.FramePool() == old(k.FramePool())
    ensures o.Returned? ==>
      var e := old(k.envs)[k.curenv];
      var pn := PageNumber(faultVa);
      var f := old(k.nextFrame);
      && pn in e.pt && e.pt[pn].frame in old(k.frames)
      && k.envs == old(k.envs)[k.curenv := PgfaultEnv(e, pn, f)]
      && k.frames == PgfaultFrames(old(k.frames), e, pn, f)
      && k.FramePool() == (old(k.nextFrame) + 1, old(k.freePages) - 1)
  {
    var cur := k.curenv;
    var e := k.envs[cur];
    if !CowWriteFault(e, faultVa, err) {
      return Panicked;
    }
    var pn := PageNumber(faultVa);
    assert pn in e.pt && pn < UTOP_PN && e.pt[pn].frame in k.frames;
    var r := k.SysPageAlloc(0, PFTEMP, PERM_PUW);
    if r < 0 {
      return Panicked;
    }
    ghost var f := old(k.nextFrame);
    ghost var frames0 := old(k.frames);
    ghost var e1 := MapPage(e, PFTEMP_PN, Pte(f, PERM_PUW));
    var addr := pn * PGSIZE;
    assert PageNumber(addr) == pn;
    assert k.envs == old(k.envs)[cur := e1];
    k.CopyPage(PFTEMP, addr);
    assert k.frames == PgfaultFrames(frames0, e, pn, f);
    r := k.SysPageMap(0, PFTEMP, 0, addr, PERM_PUW);
    if r < 0 {
      assert false;
      return Panicked;
    }
    ghost var e2 := MapPage(e1, pn, Pte(f, PERM_PUW));
    assert k.envs == old(k.envs)[cur := e2];
    r := k.SysPageUnmap(0, PFTEMP);
    if r < 0 {
      assert false;
      return Panicked;
    }
    PgfaultMappings(e, pn, f);
    assert k.envs == old(k.envs)[cur := UnmapPage(e2, PFTEMP_PN)];
    o := Returned(());
  }

  /**
   * duppage: map our page `pn` at the same address in `envid`, following
   * Classify's three cases; a copy-on-write page is then remapped
   * copy-on-write in the caller as well. A failed mapping panics.
   */
  method DupPage(k: Kernel, envid: EnvId, pn: nat) returns (o: Outcome<()>)
    requires k.Valid()
    modifies k
    ensures k.Valid()
    ensures k.curenv == old(k.curenv) && k.frames == old(k.frames)
    ensures k.FramePool() == old(k.FramePool()) && k.EnvPool() == old(k.EnvPool())
    ensures o.Panicked? <==> DupPageSpec(old(k.envs), k.curenv, envid, pn).None?
    ensures o.Panicked? ==> k.envs == old(k.envs)
    ensures o.Returned? ==> k.envs == DupPageSpec(old(k.envs), k.curenv, envid, pn).value
  {
    var cur := k.curenv;
    if !DirPresent(k.envs[cur], pn) {
      // reading uvpt[pn] faults, and pgfault rejects a read fault
      return Panicked;
    }
    var perm := Entry(k.envs[cur], pn);
    var addr := pn * PGSIZE;
    assert PageNumber(addr) == pn;
    var r;
    match Classify(perm) {
      case SharedPage =>
        r := k.SysPageMap(0, addr, envid, addr, perm & PTE_SYSCALL);
        if r < 0 {
          return Panicked;
        }
      case CopyOnWritePage =>
        r := k.SysPageMap(0, addr, envid, addr, PERM_COW);
        if r < 0 {
          return Panicked;
        }
        r := k.SysPageMap(0, addr, 0, addr, PERM_COW);
        if r < 0 {
          assert false;
          return Panicked;
        }
      case ReadOnlyPage =>
        r := k.SysPageMap(0, addr, envid, addr, PTE_U | PTE_P);
        if r < 0 {
          return Panicked;
        }
    }
    o := Returned(());
  }

  /**
   * A write by the current environment to its normal stack page: the MMU
   * lets it through on a present writable page, and otherwise the trap
   * goes to pgfault.
   */
  method StackWrite(k: Kernel) returns (o: Outcome<()>)
    requires k.Valid()
    modifies k
    ensures k.Valid()
    ensures k.curenv == old(k.curenv) && k.EnvPool() == old(k.EnvPool())
    ensures !WriteFaults(old(k.envs)[k.curenv], USTACK_PN) ==> o.Returned?
    ensures WriteFaults(old(k.envs)[k.curenv], USTACK_PN) ==>
      (o.Panicked? <==> !CowWriteFault(old(k.envs)[k.curenv], USTACKTOP - PGSIZE, FEC_WR) || old(k.freePages) == 0)
    ensures o.Panicked? || !WriteFaults(old(k.envs)[k.curenv], USTACK_PN) ==>
      k.envs == old(k.envs) && k.frames == old(k.frames) && k.FramePool() == old(k.FramePool())
    ensures o.Returned? && WriteFaults(old(k.envs)[k.curenv], USTACK_PN) ==>
      var e := old(k.envs)[k.curenv];
      var g := old(k.nextFrame);
      && USTACK_PN in e.pt
      && k.envs == old(k.envs)[k.curenv := PgfaultEnv(e, USTACK_PN, g)]
      && k.frames == old(k.frames)[g := old(k.frames)[e.pt[USTACK_PN].frame]]
      && k.FramePool() == (g + 1, old(k.freePages) - 1)
  {
    assert PageNumber(USTACKTOP - PGSIZE) == USTACK_PN;
    if WriteFaults(k.envs[k.curenv], USTACK_PN) {
      o := Pgfault(k, USTACKTOP - PGSIZE, FEC_WR);
    } else {
      o := Returned(());
    }
  }

  /** The environments sys_exofork leaves behind in the parent. */
  function AfterExofork(envs: map<EnvId, Env>, cur: EnvId, c: EnvId): map<EnvId, Env>
  {
    envs[c := NewEnv(cur)]
  }

  /**
   * The last three calls of fork and sfork: a fresh page for the child's
   * exception stack, its page fault upcall, and ENV_RUNNABLE. Only the page
   * allocation can fail.
   */
  method FinishFork(k: Kernel, c: EnvId, entry: nat) returns (o: Outcome<()>)
    requires k.Valid() && c in k.envs && c != k.curenv && k.envs[c].parentId == k.curenv
    modifies k
    ensures k.Valid()
    ensures k.curenv == old(k.curenv) && k.EnvPool() == old(k.EnvPool())
    ensures o.Panicked? <==> old(k.freePages) == 0
    ensures o.Panicked? ==> k.envs == old(k.envs) && k.frames == old(k.frames) && k.FramePool() == old(k.FramePool())
    ensures o.Returned? ==>
      var f := old(k.nextFrame);
      && f !in old(k.frames)
      && k.envs == old(k.envs)[c := FinishChild(old(k.envs)[c], f, entry)]
      && k.frames == old(k.frames)[f := ZeroPage()]
      && k.FramePool() == (old(k.nextFrame) + 1, old(k.freePages) - 1)
  {
    var r := k.SysPageAlloc(c, UXSTACKTOP - PGSIZE, PERM_PUW);
    if r < 0 {
      return Panicked;
    }
    r := k.SysEnvSetPgfaultUpcall(c, entry);
    if r < 0 {
      assert false;
      return Panicked;
    }
    r := k.SysEnvSetStatus(c, Runnable);
    if r < 0 {
      assert false;
      return Panicked;
    }
    o := Returned(());
  }

  /**
   * The body of fork's loop at `addr`: duppage the page if it is present
   * at both levels and is not the exception stack. `E` is the state the
   * loop started in and `n` the page number of `addr`.
   */
  method DupIfMapped(k: Kernel, c: EnvId, addr: nat, ghost E: map<EnvId, Env>, ghost n: nat) returns (o: Outcome<()>)
    requires k.Valid() && k.curenv in E && c in E && c != k.curenv && c != 0
    requires addr == n * PGSIZE && n < UTOP_PN
    requires k.envs == ForkPrefix(E, k.curenv, c, n)
    modifies k
    ensures k.Valid()
    ensures k.curenv == old(k.curenv) && k.frames == old(k.frames)
    ensures k.FramePool() == old(k.FramePool()) && k.EnvPool() == old(k.EnvPool())
    ensures o.Panicked? <==> ForkDups(E[k.curenv], n) && !DupPermitted(E[k.curenv].pt[n].perm)
    ensures o.Panicked? ==> k.envs == old(k.envs)
    ensures o.Returned? ==> k.envs == ForkPrefix(E, k.curenv, c, n + 1)
  {
    var pn := PageNumber(addr);
    assert pn == n;
    ForkStep(E, k.curenv, c, pn);
    var e := k.envs[k.curenv];
    assert (addr != UXSTACKTOP - PGSIZE) == (pn != UXSTACK_PN);
    assert (DirPresent(e, pn) && Entry(e, pn) & PTE_P != 0) == Present(e, pn);
    if DirPresent(e, pn) && Entry(e, pn) & PTE_P != 0 && addr != UXSTACKTOP - PGSIZE {
      o := DupPage(k, c, pn);
    } else {
      o := Returned(());
    }
  }

  /**
   * fork's loop: every page below UTOP that is present at both levels,
   * other than the exception stack, goes through duppage into child `c`.
   * It completes exactly when every such page may be duplicated; a panic
   * leaves every environment's run state as it was.
   */
  method DupAddressSpace(k: Kernel, c: EnvId) returns (o: Outcome<()>)
    requires k.Valid() && c in k.envs && c != k.curenv && k.envs[c] == NewEnv(k.curenv)
    modifies k
    ensures k.Valid()
    ensures k.curenv == old(k.curenv) && k.frames == old(k.frames)
    ensures k.FramePool() == old(k.FramePool()) && k.EnvPool() == old(k.EnvPool())
    ensures o.Returned? <==> ForkPermitted(old(k.envs)[k.curenv])
    ensures o.Returned? ==> k.envs == ForkPrefix(old(k.envs), k.curenv, c, UTOP_PN)
    ensures k.envs.Keys == old(k.envs).Keys
    ensures forall id | id in k.envs :: k.envs[id].status == old(k.envs)[id].status
  {
    var cur := k.curenv;
    ghost var E := k.envs;
    ghost var P := E[cur];
    ForkPrefixStart(E, cur, c);
    var addr := 0;
    ghost var n := 0;
    while addr < UTOP
      invariant addr == n * PGSIZE && n <= UTOP_PN
      invariant k.Valid() && k.curenv == cur
      invariant k.frames == old(k.frames) && k.FramePool() == old(k.FramePool()) && k.EnvPool() == old(k.EnvPool())
      invariant k.envs == ForkPrefix(E, cur, c, n)
      invariant forall pn | pn in P.pt && pn < n && ForkDups(P, pn) :: DupPermitted(P.pt[pn].perm)
    {
      var d := DupIfMapped(k, c, addr, E, n);
      if d.Panicked? {
        assert !ForkPermitted(P);
        ForkPrefixKeepsStatus(E, cur, c, n);
        return Panicked;
      }
      addr := addr + PGSIZE;
      n := n + 1;
    }
    assert n == UTOP_PN;
    assert ForkPermitted(P);
    ForkPrefixKeepsStatus(E, cur, c, n);
    o := Returned(());
  }

  /**
   * fork: create a child, give it every mapped page below UTOP except the
   * exception stack through duppage, a fresh exception stack, the upcall
   * `entry` (the address of _pgfault_upcall), and make it runnable. It
   * returns Parent(child) in the parent and Child in the child.
   *
   * Between the loop and the first sys_page_alloc the parent writes its
   * own stack, which duppage has just made copy-on-write unless it is
   * PTE_SHARE; that write faults into pgfault, which takes a frame of its
   * own. The fault comes right after the stack page's duppage; the loop's
   * later pages (the guard page and the exception stack) touch neither the
   * stack page nor PFTEMP, so it is taken here. A panic leaves no new
   * environment runnable.
   */
  method Fork(k: Kernel, side: Side, entry: nat) returns (o: Outcome<Discriminator>)
    requires k.Valid() && StackWritable(k.envs[k.curenv])
    modifies k
    ensures k.Valid()
    ensures k.curenv == old(k.curenv)
    ensures old(k.freeEnvs) == 0 ==> o == Panicked && k.envs == old(k.envs)
    ensures old(k.freeEnvs) > 0 && side == InChild ==>
      o == Returned(Child) && k.envs == AfterExofork(old(k.envs), k.curenv, old(k.nextEnvId))
    ensures old(k.freeEnvs) > 0 && side == InParent ==>
      var P := old(k.envs)[k.curenv];
      var c := old(k.nextEnvId);
      && (o.Returned? <==> ForkPermitted(P) && old(k.freePages) > StackFaultFrames(P))
      && (o.Returned? ==>
            var g := old(k.nextFrame);
            var f := g + StackFaultFrames(P);
            && o == Returned(Parent(c))
            && k.envs == old(k.envs)[k.curenv := ForkedParent(P, g)][c := ForkedChild(P, k.curenv, f, entry)]
            && k.frames == ForkFrames(old(k.frames), P, g, f)
            && g !in old(k.frames) && f !in old(k.frames))
      && (o.Panicked? ==>
            && c in k.envs && k.envs[c].status == NotRunnable
            && forall id | id in k.envs && id != c :: id in old(k.envs) && k.envs[id].status == old(k.envs)[id].status)
  {
    var cur := k.curenv;
    var x := k.SysExofork(side);
    if x.Failed? {
      return Panicked;
    }
    if x.d.Child? {
      return Returned(Child);
    }
    var c := x.d.child;
    o := ForkInParent(k, c, entry);
  }

  /**
   * The parent's side of fork after sys_exofork created child `c`: the
   * duppage loop, then the parent's stack write and the last three calls.
   */
  method ForkInParent(k: Kernel, c: EnvId, entry: nat) returns (o: Outcome<Discriminator>)
    requires k.Valid() && StackWritable(k.envs[k.curenv])
    requires c in k.envs && c != k.curenv && k.envs[c] == NewEnv(k.curenv)
    modifies k
    ensures k.Valid()
    ensures k.curenv == old(k.curenv)
    ensures var P := old(k.envs)[k.curenv];
      && (o.Returned? <==> ForkPermitted(P) && old(k.freePages) > StackFaultFrames(P))
      && (o.Returned? ==>
            var g := old(k.nextFrame);
            var f := g + StackFaultFrames(P);
            && o == Returned(Parent(c))
            && k.envs == old(k.envs)[k.curenv := ForkedParent(P, g)][c := ForkedChild(P, k.curenv, f, entry)]
            && k.frames == ForkFrames(old(k.frames), P, g, f)
            && g !in old(k.frames) && f !in old(k.frames))
      && (o.Panicked? ==>
            && k.envs.Keys == old(k.envs).Keys
            && forall id | id in k.envs :: k.envs[id].status == old(k.envs)[id].status)
  {
    var cur := k.curenv;
    ghost var E := k.envs;
    ghost var P := E[cur];
    var d := DupAddressSpace(k, c);
    if d.Panicked? {
      return Panicked;
    }
    ForkStackFault(P);
    ghost var g := k.nextFrame;
    d := WriteStackAndFinish(k, c, entry, P);
    if d.Panicked? {
      return Panicked;
    }
    ForkFinish(E, cur, c, g, g + StackFaultFrames(P), entry);
    o := Returned(Parent(c));
  }

  /**
   * What fork and sfork do once the child holds its pages: the parent's
   * next write to its stack, which traps exactly when `P`, the parent's
   * environment before the call, had a copy-on-write stack page, and then
   * the last three calls.
   */
  method WriteStackAndFinish(k: Kernel, c: EnvId, entry: nat, ghost P: Env) returns (o: Outcome<()>)
    requires k.Valid() && c in k.envs && c != k.curenv && k.envs[c].parentId == k.curenv
    requires var Q := k.envs[k.curenv];
      && (WriteFaults(Q, USTACK_PN) <==> StackFaults(P))
      && (StackFaults(P) ==>
            CowWriteFault(Q, USTACKTOP - PGSIZE, FEC_WR) && USTACK_PN in Q.pt && Q.pt[USTACK_PN].frame == P.pt[USTACK_PN].frame)
    modifies k
    ensures k.Valid()
    ensures k.curenv == old(k.curenv) && k.EnvPool() == old(k.EnvPool())
    ensures o.Returned? <==> old(k.freePages) > StackFaultFrames(P)
    ensures o.Returned? ==>
      var g := old(k.nextFrame);
      var f := g + StackFaultFrames(P);
      var S1 := StackFaulted(old(k.envs), k.curenv, P, g);
      && k.envs == S1[c := FinishChild(S1[c], f, entry)]
      && (StackFaults(P) ==> P.pt[USTACK_PN].frame in old(k.frames))
      && k.frames == ForkFrames(old(k.frames), P, g, f)
      && g !in old(k.frames) && f !in old(k.frames)
    ensures o.Panicked? ==>
      && k.envs.Keys == old(k.envs).Keys
      && forall id | id in k.envs :: k.envs[id].status == old(k.envs)[id].status
  {
    ghost var g := k.nextFrame;
    o := StackWrite(k);
    if o.Panicked? {
      return;
    }
    assert k.envs == StackFaulted(old(k.envs), k.curenv, P, g);
    assert k.nextFrame == g + StackFaultFrames(P);
    o := FinishFork(k, c, entry);
  }

  /** One mapping of sfork's loop succeeds exactly when its masked flags are allowed, and then takes one prefix state to the next. */
  lemma SharePageStep(E: map<EnvId, Env>, cur: EnvId, c: EnvId, n: nat)
    requires cur in E && c in E && c != cur && c != 0 && E[c].parentId == cur
    requires n < UTOP_PN && SforkShares(E[cur], n)
    ensures var S := SforkPrefix(E, cur, c, n);
      var perm := E[cur].pt[n].perm & PTE_SYSCALL;
      && Resolve(S, cur, 0) == Some(cur) && Resolve(S, cur, c) == Some(c) && S[cur] == E[cur]
      && (PageMapStatus(S, cur, 0, n * PGSIZE, c, n * PGSIZE, perm) == 0 <==> PermOk(perm))
      && S[c := MapPage(S[c], n, Pte(E[cur].pt[n].frame, perm))] == SforkPrefix(E, cur, c, n + 1)
  {
    SforkStep(E, cur, c, n);
    assert PageNumber(n * PGSIZE) == n;
  }

  /**
   * The body of sfork's loop at `addr`: unless it is one of the two stack
   * pages, a page present at both levels is mapped into the child with
   * its flags masked by PTE_SYSCALL, and a failed mapping panics.
   */
  method ShareIfMapped(k: Kernel, c: EnvId, addr: nat, ghost E: map<EnvId, Env>, ghost n: nat) returns (o: Outcome<()>)
    requires k.Valid() && k.curenv in E && c in E && c != k.curenv && c != 0 && E[c].parentId == k.curenv
    requires addr == n * PGSIZE && n < UTOP_PN
    requires k.envs == SforkPrefix(E, k.curenv, c, n)
    modifies k
    ensures k.Valid()
    ensures k.curenv == old(k.curenv) && k.frames == old(k.frames)
    ensures k.FramePool() == old(k.FramePool()) && k.EnvPool() == old(k.EnvPool())
    ensures o.Panicked? <==> SforkShares(E[k.curenv], n) && !PermOk(E[k.curenv].pt[n].perm & PTE_SYSCALL)
    ensures o.Panicked? ==> k.envs == old(k.envs)
    ensures o.Returned? ==> k.envs == SforkPrefix(E, k.curenv, c, n + 1)
  {
    var pn := PageNumber(addr);
    assert pn == n;
    SforkStep(E, k.curenv, c, pn);
    o := Returned(());
    assert (addr != UXSTACKTOP - PGSIZE && addr != USTACKTOP - PGSIZE) == (pn != UXSTACK_PN && pn != USTACK_PN);
    if addr != UXSTACKTOP - PGSIZE && addr != USTACKTOP - PGSIZE {
      var e := k.envs[k.curenv];
      assert (DirPresent(e, pn) && Entry(e, pn) & PTE_P != 0) == Present(e, pn);
      if DirPresent(e, pn) && Entry(e, pn) & PTE_P != 0 {
        SharePageStep(E, k.curenv, c, pn);
        ghost var pte := Pte(e.pt[pn].frame, e.pt[pn].perm & PTE_SYSCALL);
        var r := k.SysPageMap(0, addr, c, addr, Entry(e, pn) & PTE_SYSCALL);
        if r < 0 {
          o := Panicked;
        } else {
          assert k.envs == old(k.envs)[c := MapPage(old(k.envs)[c], pn, pte)];
        }
      }
    }
  }

  /**
   * sfork's loop: every page below UTOP that is present at both levels,
   * other than the two stack pages, is mapped into child `c` at the same
   * address with the same frame and its flags masked by PTE_SYSCALL. It
   * completes exactly when every such mapping is allowed.
   */
  method ShareAddressSpace(k: Kernel, c: EnvId) returns (o: Outcome<()>)
    requires k.Valid() && c in k.envs && c != k.curenv && k.envs[c] == NewEnv(k.curenv)
    modifies k
    ensures k.Valid()
    ensures k.curenv == old(k.curenv) && k.frames == old(k.frames)
    ensures k.FramePool() == old(k.FramePool()) && k.EnvPool() == old(k.EnvPool())
    ensures o.Returned? <==> SforkPermitted(old(k.envs)[k.curenv])
    ensures o.Returned? ==> k.envs == SforkPrefix(old(k.envs), k.curenv, c, UTOP_PN)
    ensures k.envs.Keys == old(k.envs).Keys
    ensures forall id | id in k.envs :: k.envs[id].status == old(k.envs)[id].status
  {
    var cur := k.curenv;
    ghost var E := k.envs;
    ghost var P := E[cur];
    SforkPrefixStart(E, cur, c);
    var addr := 0;
    ghost var n := 0;
    while addr < UTOP
      invariant addr == n * PGSIZE && n <= UTOP_PN
      invariant k.Valid() && k.curenv == cur
      invariant k.frames == old(k.frames) && k.FramePool() == old(k.FramePool()) && k.EnvPool() == old(k.EnvPool())
      invariant k.envs == SforkPrefix(E, cur, c, n)
      invariant forall pn | pn in P.pt && pn < n && SforkShares(P, pn) :: PermOk(P.pt[pn].perm & PTE_SYSCALL)
    {
      var d := ShareIfMapped(k, c, addr, E, n);
      if d.Panicked? {
        assert !SforkPermitted(P);
        SforkPrefixKeepsStatus(E, cur, c, n);
        return Panicked;
      }
      addr := addr + PGSIZE;
      n := n + 1;
    }
    assert n == UTOP_PN;
    assert SforkPermitted(P);
    SforkPrefixKeepsStatus(E, cur, c, n);
    o := Returned(());
  }

  /**
   * sfork: like fork, except that every page other than the two stack
   * pages is shared with the child rather than copy-on-write; only the
   * normal stack page goes through duppage, and the parent's next write to
   * it, before sys_page_alloc, faults into pgfault unless it is PTE_SHARE.
   */
  method SFork(k: Kernel, side: Side, entry: nat) returns (o: Outcome<Discriminator>)
    requires k.Valid() && StackWritable(k.envs[k.curenv])
    modifies k
    ensures k.Valid()
    ensures k.curenv == old(k.curenv)
    ensures old(k.freeEnvs) == 0 ==> o == Panicked && k.envs == old(k.envs)
    ensures old(k.freeEnvs) > 0 && side == InChild ==>
      o == Returned(Child) && k.envs == AfterExofork(old(k.envs), k.curenv, old(k.nextEnvId))
    ensures old(k.freeEnvs) > 0 && side == InParent ==>
      var P := old(k.envs)[k.curenv];
      var c := old(k.nextEnvId);
      && (o.Returned? <==>
            SforkPermitted(P) && DupPermitted(P.pt[USTACK_PN].perm) && old(k.freePages) > StackFaultFrames(P))
      && (o.Returned? ==>
            var g := old(k.nextFrame);
            var f := g + StackFaultFrames(P);
            && o == Returned(Parent(c))
            && k.envs == old(k.envs)[k.curenv := SforkedParent(P, g)][c := SforkedChild(P, k.curenv, f, entry)]
            && k.frames == ForkFrames(old(k.frames), P, g, f)
            && g !in old(k.frames) && f !in old(k.frames))
      && (o.Panicked? ==>
            && c in k.envs && k.envs[c].status == NotRunnable
            && forall id | id in k.envs && id != c :: id in old(k.envs) && k.envs[id].status == old(k.envs)[id].status)
  {
    var x := k.SysExofork(side);
    if x.Failed? {
      return Panicked;
    }
    if x.d.Child? {
      return Returned(Child);
    }
    var c := x.d.child;
    o := SForkInParent(k, c, entry);
  }

  /**
   * The parent's side of sfork after sys_exofork created child `c`: the
   * sharing loop, duppage of the stack page, then the parent's stack
   * write and the last three calls.
   */
  method SForkInParent(k: Kernel, c: EnvId, entry: nat) returns (o: Outcome<Discriminator>)
    requires k.Valid() && StackWritable(k.envs[k.curenv])
    requires c in k.envs && c != k.curenv && k.envs[c] == NewEnv(k.curenv)
    modifies k
    ensures k.Valid()
    ensures k.curenv == old(k.curenv)
    ensures var P := old(k.envs)[k.curenv];
      && (o.Returned? <==>
            SforkPermitted(P) && DupPermitted(P.pt[USTACK_PN].perm) && old(k.freePages) > StackFaultFrames(P))
      && (o.Returned? ==>
            var g := old(k.nextFrame);
            var f := g + StackFaultFrames(P);
            && o == Returned(Parent(c))
            && k.envs == old(k.envs)[k.curenv := SforkedParent(P, g)][c := SforkedChild(P, k.curenv, f, entry)]
            && k.frames == ForkFrames(old(k.frames), P, g, f)
            && g !in old(k.frames) && f !in old(k.frames))
      && (o.Panicked? ==>
            && k.envs.Keys == old(k.envs).Keys
            && forall id | id in k.envs :: k.envs[id].status == old(k.envs)[id].status)
  {
    var cur := k.curenv;
    ghost var E := k.envs;
    var d := ShareAddressSpace(k, c);
    if d.Panicked? {
      return Panicked;
    }
    d := DupStackAndFinish(k, c, entry, E);
    if d.Panicked? {
      return Panicked;
    }
    o := Returned(Parent(c));
  }

  /**
   * The end of sfork, once its loop has left the environments at
   * SforkPrefix(E, ..., UTOP_PN): duppage of the stack page, the parent's
   * stack write and the last three calls.
   */
  method DupStackAndFinish(k: Kernel, c: EnvId, entry: nat, ghost E: map<EnvId, Env>) returns (o: Outcome<()>)
    requires k.Valid() && k.curenv in E && c in E && c != k.curenv && c != 0 && E[c].parentId == k.curenv
    requires StackWritable(E[k.curenv]) && k.envs == SforkPrefix(E, k.curenv, c, UTOP_PN)
    modifies k
    ensures k.Valid()
    ensures k.curenv == old(k.curenv)
    ensures var P := E[k.curenv];
      && (o.Returned? <==> DupPermitted(P.pt[USTACK_PN].perm) && old(k.freePages) > StackFaultFrames(P))
      && (o.Returned? ==>
            var g := old(k.nextFrame);
            var f := g + StackFaultFrames(P);
            && k.envs == E[k.curenv := SforkedParent(P, g)][c := SforkedChild(P, k.curenv, f, entry)]
            && k.frames == ForkFrames(old(k.frames), P, g, f)
            && g !in old(k.frames) && f !in old(k.frames))
      && (o.Panicked? ==>
            && k.envs.Keys == old(k.envs).Keys
            && forall id | id in k.envs :: k.envs[id].status == old(k.envs)[id].status)
  {
    var cur := k.curenv;
    ghost var P := E[cur];
    SforkFinish(E, cur, c, k.nextFrame, k.nextFrame + StackFaultFrames(P), entry);
    o := DupStack(k, c, E);
    if o.Panicked? {
      return;
    }
    o := WriteStackAndFinish(k, c, entry, P);
  }

  /** sfork's duppage of the stack page, which leaves the parent's stack page ready for its write fault. */
  method DupStack(k: Kernel, c: EnvId, ghost E: map<EnvId, Env>) returns (o: Outcome<()>)
    requires k.Valid() && k.curenv in E && c in E && c != k.curenv && c != 0 && E[c].parentId == k.curenv
    requires StackWritable(E[k.curenv]) && k.envs == SforkPrefix(E, k.curenv, c, UTOP_PN)
    modifies k
    ensures k.Valid()
    ensures k.curenv == old(k.curenv) && k.frames == old(k.frames)
    ensures k.FramePool() == old(k.FramePool()) && k.EnvPool() == old(k.EnvPool())
    ensures var D := DupPageSpec(old(k.envs), k.curenv, c, USTACK_PN);
      && (o.Panicked? <==> D.None?)
      && (o.Panicked? ==> k.envs == old(k.envs))
      && (o.Returned? ==> k.envs == D.value)
    ensures o.Returned? ==>
      var P := E[k.curenv];
      var Q := k.envs[k.curenv];
      && c in k.envs && k.envs[c].parentId == k.curenv
      && (WriteFaults(Q, USTACK_PN) <==> StackFaults(P))
      && (StackFaults(P) ==>
            CowWriteFault(Q, USTACKTOP - PGSIZE, FEC_WR) && USTACK_PN in Q.pt && Q.pt[USTACK_PN].frame == P.pt[USTACK_PN].frame)
  {
    SforkStackFault(E, k.curenv, c);
    o := DupPage(k, c, USTACK_PN);
  }
}
