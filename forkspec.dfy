/**
 * What lib/fork.c does to the page tables, stated as functions of the
 * state before the call, and the properties of copy-on-write fork proved
 * about those functions.
 */
module ForkSpec {
  import opened Base
  import opened Mmu
  import opened AddrSpace

  /** The permissions of a private, writable page. */
  const PERM_PUW: bv32 := PTE_P | PTE_U | PTE_W
  /** The permissions of a copy-on-write page. */
  const PERM_COW: bv32 := PTE_U | PTE_P | PTE_COW

  /** duppage's three cases, tested in this order. */
  datatype DupKind = SharedPage | CopyOnWritePage | ReadOnlyPage

  function Classify(perm: bv32): (k: DupKind)
    ensures k == SharedPage <==> perm & PTE_SHARE != 0
    ensures k == CopyOnWritePage <==>
      perm & PTE_SHARE == 0 && (perm & PTE_W != 0 || perm & PTE_COW != 0)
  {
    if perm & PTE_SHARE != 0 then SharedPage
    else if perm & PTE_W != 0 || perm & PTE_COW != 0 then CopyOnWritePage
    else ReadOnlyPage
  }

  /** The permissions duppage gives the child's mapping. */
  function ChildPerm(perm: bv32): bv32
  {
    match Classify(perm)
    case SharedPage => perm & PTE_SYSCALL
    case CopyOnWritePage => PERM_COW
    case ReadOnlyPage => PTE_U | PTE_P
  }

  /** The child mapping duppage asks for is one sys_page_map accepts. */
  predicate DupPermitted(perm: bv32)
  {
    PermOk(ChildPerm(perm))
  }

  lemma ChildPermPolicy(perm: bv32)
    ensures Classify(perm) != SharedPage ==> ChildPerm(perm) & PTE_W == 0
    ensures Classify(perm) == CopyOnWritePage ==> ChildPerm(perm) & PTE_COW != 0
    ensures Classify(perm) != SharedPage ==> DupPermitted(perm)
    ensures Classify(perm) == SharedPage ==> (DupPermitted(perm) <==> perm & PTE_U != 0 && perm & PTE_P != 0)
    ensures ChildPerm(perm) & PTE_W != 0 ==> perm & PTE_W != 0
  {
  }

  // ---------------------------------------------------------------------
  // duppage

  /**
   * The environments after duppage(envid, pn) run by `cur`, or None when
   * it panics (the uvpt read faults, or a sys_page_map fails). Nothing
   * changes on a panic.
   */
  function DupPageSpec(envs: map<EnvId, Env>, cur: EnvId, envid: EnvId, pn: nat)
    : Option<map<EnvId, Env>>
    requires cur in envs
  {
    var P := envs[cur];
    var c := Resolve(envs, cur, envid);
    if !(Present(P, pn) && pn < UTOP_PN && c.Some? && DupPermitted(P.pt[pn].perm)) then None
    else
      var f := P.pt[pn].frame;
      var perm := P.pt[pn].perm;
      var envs1 := envs[c.value := MapPage(envs[c.value], pn, Pte(f, ChildPerm(perm)))];
      if Classify(perm) == CopyOnWritePage then
        Some(envs1[cur := MapPage(envs1[cur], pn, Pte(f, PERM_COW))])
      else
        Some(envs1)
  }

  /**
   * duppage into a child: both mappings point at the parent's frame; a
   * shared page keeps its (masked) flags and the parent is untouched; a
   * writable or copy-on-write page becomes copy-on-write and unwritable on
   * both sides; a read-only page goes to the child read-only and the parent
   * is untouched. No other page and no other environment changes.
   */
  lemma DupPageEffect(envs: map<EnvId, Env>, cur: EnvId, c: EnvId, pn: nat)
    requires cur in envs && c in envs && c != cur && c != 0 && envs[c].parentId == cur
    ensures var P := envs[cur];
      DupPageSpec(envs, cur, c, pn).Some? <==>
        Present(P, pn) && pn < UTOP_PN && DupPermitted(P.pt[pn].perm)
    ensures DupPageSpec(envs, cur, c, pn).Some? ==>
      var P := envs[cur];
      var e := DupPageSpec(envs, cur, c, pn).value;
      var was := P.pt[pn];
      && e.Keys == envs.Keys
      && (forall id | id in envs && id != cur && id != c :: e[id] == envs[id])
      && (forall id | id in envs :: e[id].status == envs[id].status && e[id].parentId == envs[id].parentId)
      && c in e && cur in e && pn in e[c].pt && pn in e[cur].pt
      && e[c].pt[pn].frame == was.frame && e[cur].pt[pn].frame == was.frame
      && e[c].pt[pn].perm == ChildPerm(was.perm)
      && (Classify(was.perm) == SharedPage ==> e[c].pt[pn].perm == was.perm & PTE_SYSCALL && e[cur] == P)
      && (Classify(was.perm) == CopyOnWritePage ==>
            e[cur].pt[pn].perm == PERM_COW && e[c].pt[pn].perm == PERM_COW)
      && (Classify(was.perm) == ReadOnlyPage ==> e[c].pt[pn].perm == PTE_U | PTE_P && e[cur] == P)
      && (forall q | q in envs[c].pt && q != pn :: q in e[c].pt && e[c].pt[q] == envs[c].pt[q])
      && (forall q | q in P.pt && q != pn :: q in e[cur].pt && e[cur].pt[q] == P.pt[q])
      && e[cur].pt.Keys == P.pt.Keys
  {
    var P := envs[cur];
    if DupPageSpec(envs, cur, c, pn).Some? {
      var was := P.pt[pn];
      var e := DupPageSpec(envs, cur, c, pn).value;
      var C' := MapPage(envs[c], pn, Pte(was.frame, ChildPerm(was.perm)));
      assert e[c] == C';
      if Classify(was.perm) == CopyOnWritePage {
        assert e[cur] == MapPage(P, pn, Pte(was.frame, PERM_COW));
        assert DirOf(pn) in P.pgdir;
      } else {
        assert e[cur] == P;
      }
    }
  }

  // ---------------------------------------------------------------------
  // fork

  /** The pages fork hands to duppage: mapped, below UTOP, not the exception stack. */
  predicate ForkDups(P: Env, pn: nat)
  {
    pn < UTOP_PN && pn != UXSTACK_PN && Present(P, pn)
  }

  /** The child's entries once fork's loop has passed every page below `lim`. */
  function ForkChildPt(P: Env, lim: nat): map<nat, Pte>
  {
    map pn | pn in P.pt && pn < lim && ForkDups(P, pn) :: Pte(P.pt[pn].frame, ChildPerm(P.pt[pn].perm))
  }

  /** The parent's entries once fork's loop has passed every page below `lim`. */
  function ForkParentPt(P: Env, lim: nat): map<nat, Pte>
  {
    map pn | pn in P.pt ::
      if pn < lim && ForkDups(P, pn) && Classify(P.pt[pn].perm) == CopyOnWritePage
      then Pte(P.pt[pn].frame, PERM_COW) else P.pt[pn]
  }

  function ForkChildEnv(P: Env, cur: EnvId, lim: nat): Env
  {
    Env(cur, NotRunnable, DirsOf(ForkChildPt(P, lim).Keys), ForkChildPt(P, lim), None)
  }

  /** All environments once fork's loop has passed every page below `lim`. */
  function ForkPrefix(E: map<EnvId, Env>, cur: EnvId, c: EnvId, lim: nat): map<EnvId, Env>
    requires cur in E
  {
    E[cur := E[cur].(pt := ForkParentPt(E[cur], lim))][c := ForkChildEnv(E[cur], cur, lim)]
  }

  /** fork's loop changes no environment's run state and creates no environment. */
  lemma ForkPrefixKeepsStatus(E: map<EnvId, Env>, cur: EnvId, c: EnvId, lim: nat)
    requires cur in E && c in E && E[c].status == NotRunnable
    ensures ForkPrefix(E, cur, c, lim).Keys == E.Keys
    ensures forall id | id in E :: ForkPrefix(E, cur, c, lim)[id].status == E[id].status
  {
  }

  /** Every page fork duplicates can be given to the child (only a shared page without PTE_U cannot). */
  ghost predicate ForkPermitted(P: Env)
  {
    forall pn | pn in P.pt && ForkDups(P, pn) :: DupPermitted(P.pt[pn].perm)
  }

  lemma DirsOfAdd(s: set<nat>, pn: nat)
    ensures DirsOf(s + {pn}) == DirsOf(s) + {DirOf(pn)}
  {
    assert DirOf(pn) in DirsOf(s + {pn});
  }

  /** Before the loop the prefix state is the state right after sys_exofork. */
  lemma ForkPrefixStart(E: map<EnvId, Env>, cur: EnvId, c: EnvId)
    requires cur in E && c in E && c != cur && E[c] == NewEnv(cur)
    ensures ForkPrefix(E, cur, c, 0) == E
  {
    var P := E[cur];
    assert ForkParentPt(P, 0) == P.pt;
    assert ForkChildPt(P, 0) == map[];
    assert DirsOf(ForkChildPt(P, 0).Keys) == {};
    assert ForkChildEnv(P, cur, 0) == NewEnv(cur);
    assert E[cur].(pt := ForkParentPt(P, 0)) == P;
  }

  /** How the child's and the parent's entries grow by one page of fork's loop. */
  lemma ForkPtStep(P: Env, lim: nat)
    ensures ForkDups(P, lim) ==>
      ForkChildPt(P, lim + 1) == ForkChildPt(P, lim)[lim := Pte(P.pt[lim].frame, ChildPerm(P.pt[lim].perm))]
    ensures ForkDups(P, lim) && Classify(P.pt[lim].perm) == CopyOnWritePage ==>
      ForkParentPt(P, lim + 1) == ForkParentPt(P, lim)[lim := Pte(P.pt[lim].frame, PERM_COW)]
    ensures !(ForkDups(P, lim) && Classify(P.pt[lim].perm) == CopyOnWritePage) ==>
      ForkParentPt(P, lim + 1) == ForkParentPt(P, lim)
    ensures !ForkDups(P, lim) ==> ForkChildPt(P, lim + 1) == ForkChildPt(P, lim)
    ensures ForkParentPt(P, lim).Keys == P.pt.Keys
    ensures lim in P.pt ==> ForkParentPt(P, lim)[lim] == P.pt[lim]
  {
  }

  /** duppage's mapping into the child takes the child's prefix environment one page further. */
  lemma ForkChildStep(P: Env, cur: EnvId, lim: nat)
    requires ForkDups(P, lim)
    ensures MapPage(ForkChildEnv(P, cur, lim), lim, Pte(P.pt[lim].frame, ChildPerm(P.pt[lim].perm)))
      == ForkChildEnv(P, cur, lim + 1)
  {
    ForkPtStep(P, lim);
    DirsOfAdd(ForkChildPt(P, lim).Keys, lim);
  }

  /** duppage's copy-on-write remapping in the parent takes the parent's prefix environment one page further. */
  lemma ForkParentStep(P: Env, lim: nat)
    requires ForkDups(P, lim) && Classify(P.pt[lim].perm) == CopyOnWritePage
    ensures MapPage(P.(pt := ForkParentPt(P, lim)), lim, Pte(P.pt[lim].frame, PERM_COW))
      == P.(pt := ForkParentPt(P, lim + 1))
  {
    ForkPtStep(P, lim);
    assert P.pgdir + {DirOf(lim)} == P.pgdir;
  }

  /**
   * One iteration of fork's loop: the page `lim` is passed to duppage
   * exactly when ForkDups holds, and duppage then takes the prefix state
   * for `lim` to the prefix state for `lim + 1`; otherwise the two prefix
   * states are equal.
   */
  lemma {:induction false} ForkStep(E: map<EnvId, Env>, cur: EnvId, c: EnvId, lim: nat)
    requires cur in E && c in E && c != cur && c != 0
    requires lim < UTOP_PN
    ensures var S := ForkPrefix(E, cur, c, lim);
      && cur in S && c in S
      && (ForkDups(S[cur], lim) <==> ForkDups(E[cur], lim))
      && (ForkDups(E[cur], lim) ==>
            DupPageSpec(S, cur, c, lim) ==
              (if DupPermitted(E[cur].pt[lim].perm) then Some(ForkPrefix(E, cur, c, lim + 1)) else None))
      && (!ForkDups(E[cur], lim) ==> ForkPrefix(E, cur, c, lim + 1) == S)
  {
    var P := E[cur];
    var S := ForkPrefix(E, cur, c, lim);
    var S' := ForkPrefix(E, cur, c, lim + 1);
    ForkPtStep(P, lim);
    if ForkDups(P, lim) {
      var was := P.pt[lim];
      assert Present(S[cur], lim) && S[cur].pt[lim] == was;
      assert Resolve(S, cur, c) == Some(c);
      if DupPermitted(was.perm) {
        ForkChildStep(P, cur, lim);
        var S1 := S[c := S'[c]];
        if Classify(was.perm) == CopyOnWritePage {
          ForkParentStep(P, lim);
          assert S1[cur := S'[cur]] == S';
        } else {
          assert S1 == S';
        }
      }
    } else {
      assert S' == S;
    }
  }

  /** The last steps of fork and sfork: the child's fresh exception stack, its upcall, runnable. */
  function FinishChild(C: Env, f: nat, entry: nat): Env
  {
    MapPage(C, UXSTACK_PN, Pte(f, PERM_PUW)).(upcall := Some(entry), status := Runnable)
  }

  // ---------------------------------------------------------------------
  // The parent's own copy-on-write fault

  /**
   * The normal stack page of an environment that calls fork or sfork is
   * present and writable: the caller is running on it.
   */
  predicate StackWritable(P: Env)
  {
    Present(P, USTACK_PN) && P.pt[USTACK_PN].perm & PTE_W != 0
  }

  /** A write to page `pn` traps: the page is not present, or not writable. */
  predicate WriteFaults(e: Env, pn: nat)
  {
    !(Present(e, pn) && e.pt[pn].perm & PTE_W != 0)
  }

  /**
   * duppage makes the parent's stack page copy-on-write: the parent's next
   * write to its stack, before its next system call, traps into pgfault,
   * which set_pgfault_handler installed at the start of fork and sfork.
   */
  predicate StackFaults(P: Env)
  {
    Present(P, USTACK_PN) && Classify(P.pt[USTACK_PN].perm) == CopyOnWritePage
  }

  /** The frames that fault takes from the kernel's free list. */
  function StackFaultFrames(P: Env): (n: nat)
    ensures n <= 1 && (n == 1 <==> StackFaults(P))
  {
    if StackFaults(P) then 1 else 0
  }

  /**
   * Pages the parent's own fault leaves alone: all of them unless it
   * faults, and then all but the stack page, which moves to a copy, and
   * PFTEMP, which pgfault unmaps.
   */
  predicate KeptByParent(P: Env, pn: nat)
  {
    !(StackFaults(P) && (pn == USTACK_PN || pn == PFTEMP_PN))
  }

  /** The environments once the current environment `cur`'s stack fault, if `P`'s stack page takes one, is resolved with frame `g`. */
  function StackFaulted(envs: map<EnvId, Env>, cur: EnvId, P: Env, g: nat): map<EnvId, Env>
    requires cur in envs
  {
    if StackFaults(P) then envs[cur := PgfaultEnv(envs[cur], USTACK_PN, g)] else envs
  }

  /** The parent's entries at the end of fork's loop. */
  function ForkLoopParent(P: Env): Env
  {
    P.(pt := ForkParentPt(P, UTOP_PN))
  }

  /**
   * On a writable stack page, the parent's first stack write after fork's
   * loop traps exactly when the page is not PTE_SHARE, and then it is a
   * write to a present copy-on-write page, the fault pgfault resolves.
   */
  lemma ForkStackFault(P: Env)
    requires StackWritable(P)
    ensures var Q := ForkLoopParent(P);
      && (WriteFaults(Q, USTACK_PN) <==> StackFaults(P))
      && (StackFaults(P) <==> P.pt[USTACK_PN].perm & PTE_SHARE == 0)
      && (StackFaults(P) ==>
            && CowWriteFault(Q, USTACKTOP - PGSIZE, FEC_WR)
            && Q.pt[USTACK_PN] == Pte(P.pt[USTACK_PN].frame, PERM_COW))
  {
    assert PageNumber(USTACKTOP - PGSIZE) == USTACK_PN;
    ForkPtStep(P, UTOP_PN);
    assert ForkDups(P, USTACK_PN);
  }

  /** The parent's environment when fork returns the child's id; `g` is the frame of its stack copy. */
  function ForkedParent(P: Env, g: nat): Env
  {
    if StackFaults(P) then PgfaultEnv(ForkLoopParent(P), USTACK_PN, g) else ForkLoopParent(P)
  }

  /** The child's environment when fork returns: duplicated pages, a fresh exception stack, the upcall, runnable. */
  function ForkedChild(P: Env, cur: EnvId, f: nat, entry: nat): Env
  {
    var pt := ForkChildPt(P, UTOP_PN);
    Env(cur, Runnable, DirsOf(pt.Keys) + {DirOf(UXSTACK_PN)}, pt[UXSTACK_PN := Pte(f, PERM_PUW)], Some(entry))
  }

  /**
   * The frame store after fork: frame `g` holds the parent's copy of its
   * stack page when that page faulted, and frame `f` is the child's zeroed
   * exception stack.
   */
  function ForkFrames(frames: map<nat, Page>, P: Env, g: nat, f: nat): map<nat, Page>
    requires StackFaults(P) ==> P.pt[USTACK_PN].frame in frames
  {
    (if StackFaults(P) then frames[g := frames[P.pt[USTACK_PN].frame]] else frames)[f := ZeroPage()]
  }

  /**
   * The parent's stack fault and fork's last three calls take the state
   * its loop ends in to ForkedParent and ForkedChild.
   */
  lemma ForkFinish(E: map<EnvId, Env>, cur: EnvId, c: EnvId, g: nat, f: nat, entry: nat)
    requires cur in E && c != cur
    ensures var S1 := StackFaulted(ForkPrefix(E, cur, c, UTOP_PN), cur, E[cur], g);
      S1[c := FinishChild(S1[c], f, entry)]
        == E[cur := ForkedParent(E[cur], g)][c := ForkedChild(E[cur], cur, f, entry)]
  {
    var S := ForkPrefix(E, cur, c, UTOP_PN);
    assert S[cur] == ForkLoopParent(E[cur]);
    assert FinishChild(S[c], f, entry) == ForkedChild(E[cur], cur, f, entry);
  }

  /**
   * After fork the child maps exactly the parent's mapped pages below
   * UTOP other than the exception stack, each to the parent's frame, plus
   * its own exception stack. The parent keeps its pages, with the same
   * frames for the duplicated ones and unchanged for the others, except
   * for the two pages its own stack fault touches.
   */
  lemma ForkSharesFrames(P: Env, cur: EnvId, g: nat, f: nat, entry: nat)
    ensures var C := ForkedChild(P, cur, f, entry);
      var Q := ForkedParent(P, g);
      && (forall pn :: pn in C.pt <==> pn == UXSTACK_PN || (pn in P.pt && ForkDups(P, pn)))
      && (forall pn | pn in P.pt && ForkDups(P, pn) :: C.pt[pn].frame == P.pt[pn].frame)
      && Q.pt.Keys == (if StackFaults(P) then P.pt.Keys - {PFTEMP_PN} else P.pt.Keys)
      && P.pgdir <= Q.pgdir
      && (forall pn | pn in P.pt && KeptByParent(P, pn) && ForkDups(P, pn) :: Q.pt[pn].frame == P.pt[pn].frame)
      && (forall pn | pn in P.pt && KeptByParent(P, pn) && !ForkDups(P, pn) :: Q.pt[pn] == P.pt[pn])
  {
  }

  /**
   * No duplicated page that is not PTE_SHARE is writable in the child: a
   * writable or copy-on-write page is copy-on-write on both sides, a
   * read-only page reaches the child read-only and the parent keeps it.
   */
  lemma ForkRemovesWrite(P: Env, cur: EnvId, g: nat, f: nat, entry: nat)
    ensures var C := ForkedChild(P, cur, f, entry);
      var Q := ForkedParent(P, g);
      forall pn | pn in P.pt && ForkDups(P, pn) && Classify(P.pt[pn].perm) != SharedPage ::
        && C.pt[pn].perm & PTE_W == 0
        && (KeptByParent(P, pn) ==> Q.pt[pn].perm & PTE_W == 0)
        && (Classify(P.pt[pn].perm) == CopyOnWritePage ==>
              C.pt[pn].perm == PERM_COW && (KeptByParent(P, pn) ==> Q.pt[pn].perm == PERM_COW))
        && (Classify(P.pt[pn].perm) == ReadOnlyPage ==>
              C.pt[pn].perm == PTE_U | PTE_P && (KeptByParent(P, pn) ==> Q.pt[pn] == P.pt[pn]))
  {
    forall pn | pn in P.pt && ForkDups(P, pn) && Classify(P.pt[pn].perm) != SharedPage
      ensures ChildPerm(P.pt[pn].perm) & PTE_W == 0
    {
      ChildPermPolicy(P.pt[pn].perm);
    }
  }

  /**
   * When the parent's stack page faults, the parent ends on a private
   * writable copy in frame `g` holding the bytes of the old frame, while
   * the child keeps the old frame copy-on-write; no other page of either
   * side uses `g`, and PFTEMP is unmapped in the parent.
   */
  lemma {:induction false} ForkParentStackCopy(P: Env, cur: EnvId, g: nat, f: nat, entry: nat, frames: map<nat, Page>)
    requires EnvWf(P, frames) && g !in frames && f != g && StackFaults(P)
    ensures var C := ForkedChild(P, cur, f, entry);
      var Q := ForkedParent(P, g);
      var old_frame := P.pt[USTACK_PN].frame;
      && Q.pt[USTACK_PN] == Pte(g, PERM_PUW)
      && C.pt[USTACK_PN] == Pte(old_frame, PERM_COW)
      && ForkFrames(frames, P, g, f)[g] == frames[old_frame]
      && PFTEMP_PN !in Q.pt
      && (forall pn | pn in Q.pt && pn != USTACK_PN :: Q.pt[pn].frame != g)
      && (forall pn | pn in C.pt :: C.pt[pn].frame != g)
  {
    var C := ForkedChild(P, cur, f, entry);
    var Q := ForkedParent(P, g);
    assert ForkDups(P, USTACK_PN);
    forall pn | pn in Q.pt && pn != USTACK_PN
      ensures Q.pt[pn].frame != g
    {
      assert Q.pt[pn].frame == P.pt[pn].frame;
    }
    forall pn | pn in C.pt
      ensures C.pt[pn].frame != g
    {
      if pn != UXSTACK_PN {
        assert C.pt[pn].frame == P.pt[pn].frame;
      }
    }
  }

  /** A PTE_SHARE page goes to the child with its flags masked by PTE_SYSCALL; the parent keeps it as it was. */
  lemma ForkKeepsSharedPages(P: Env, cur: EnvId, g: nat, f: nat, entry: nat)
    ensures var C := ForkedChild(P, cur, f, entry);
      var Q := ForkedParent(P, g);
      forall pn | pn in P.pt && ForkDups(P, pn) && P.pt[pn].perm & PTE_SHARE != 0 ::
        && C.pt[pn] == Pte(P.pt[pn].frame, P.pt[pn].perm & PTE_SYSCALL)
        && (KeptByParent(P, pn) ==> Q.pt[pn] == P.pt[pn])
  {
  }

  /**
   * The child's exception stack is a private writable page, never
   * copy-on-write, on a frame that none of the parent's pages uses.
   */
  lemma {:induction false} ForkFreshExceptionStack(P: Env, cur: EnvId, f: nat, entry: nat, frames: map<nat, Page>)
    requires EnvWf(P, frames) && f !in frames
    ensures var C := ForkedChild(P, cur, f, entry);
      && C.pt[UXSTACK_PN] == Pte(f, PERM_PUW)
      && C.pt[UXSTACK_PN].perm & PTE_COW == 0
      && (forall pn | pn in P.pt :: P.pt[pn].frame != f)
      && (forall pn | pn in C.pt && pn != UXSTACK_PN :: C.pt[pn].frame != f)
      && C.status == Runnable && C.upcall == Some(entry) && C.parentId == cur
  {
    var C := ForkedChild(P, cur, f, entry);
    forall pn | pn in C.pt && pn != UXSTACK_PN
      ensures C.pt[pn].frame != f
    {
      assert pn in P.pt && C.pt[pn].frame == P.pt[pn].frame;
    }
  }

  // ---------------------------------------------------------------------
  // sfork

  /** The pages sfork's loop shares: mapped, below UTOP, neither stack page. */
  predicate SforkShares(P: Env, pn: nat)
  {
    pn < UTOP_PN && pn != UXSTACK_PN && pn != USTACK_PN && Present(P, pn)
  }

  function SforkChildPt(P: Env, lim: nat): map<nat, Pte>
  {
    map pn | pn in P.pt && pn < lim && SforkShares(P, pn) :: Pte(P.pt[pn].frame, P.pt[pn].perm & PTE_SYSCALL)
  }

  function SforkChildEnv(P: Env, cur: EnvId, lim: nat): Env
  {
    Env(cur, NotRunnable, DirsOf(SforkChildPt(P, lim).Keys), SforkChildPt(P, lim), None)
  }

  /** All environments once sfork's loop has passed every page below `lim`. */
  function SforkPrefix(E: map<EnvId, Env>, cur: EnvId, c: EnvId, lim: nat): map<EnvId, Env>
    requires cur in E
  {
    E[c := SforkChildEnv(E[cur], cur, lim)]
  }

  /** sfork's loop changes no environment's run state and creates no environment. */
  lemma SforkPrefixKeepsStatus(E: map<EnvId, Env>, cur: EnvId, c: EnvId, lim: nat)
    requires cur in E && c in E && E[c].status == NotRunnable && E[c].parentId == cur
    ensures SforkPrefix(E, cur, c, lim).Keys == E.Keys
    ensures forall id | id in E ::
      SforkPrefix(E, cur, c, lim)[id].status == E[id].status
      && SforkPrefix(E, cur, c, lim)[id].parentId == E[id].parentId
  {
  }

  /** Every page sfork's loop shares can be mapped with its flags masked by PTE_SYSCALL. */
  ghost predicate SforkPermitted(P: Env)
  {
    forall pn | pn in P.pt && SforkShares(P, pn) :: PermOk(P.pt[pn].perm & PTE_SYSCALL)
  }

  lemma SforkPrefixStart(E: map<EnvId, Env>, cur: EnvId, c: EnvId)
    requires cur in E && c in E && c != cur && E[c] == NewEnv(cur)
    ensures SforkPrefix(E, cur, c, 0) == E
  {
    assert SforkChildPt(E[cur], 0) == map[];
    assert DirsOf(SforkChildPt(E[cur], 0).Keys) == {};
    assert SforkChildEnv(E[cur], cur, 0) == NewEnv(cur);
  }

  /** The child's entries grow by one page of sfork's loop exactly when that page is shared. */
  lemma SforkPtStep(P: Env, lim: nat)
    ensures SforkShares(P, lim) ==>
      SforkChildPt(P, lim + 1) == SforkChildPt(P, lim)[lim := Pte(P.pt[lim].frame, P.pt[lim].perm & PTE_SYSCALL)]
    ensures !SforkShares(P, lim) ==> SforkChildPt(P, lim + 1) == SforkChildPt(P, lim)
  {
  }

  /** sfork's mapping into the child takes the child's prefix environment one page further. */
  lemma SforkChildStep(P: Env, cur: EnvId, lim: nat)
    requires SforkShares(P, lim)
    ensures MapPage(SforkChildEnv(P, cur, lim), lim, Pte(P.pt[lim].frame, P.pt[lim].perm & PTE_SYSCALL))
      == SforkChildEnv(P, cur, lim + 1)
  {
    SforkPtStep(P, lim);
    DirsOfAdd(SforkChildPt(P, lim).Keys, lim);
  }

  /** One iteration of sfork's loop: a shared page goes to the child with the same frame and its masked flags. */
  lemma {:induction false} SforkStep(E: map<EnvId, Env>, cur: EnvId, c: EnvId, lim: nat)
    requires cur in E && c in E && c != cur
    ensures var P := E[cur];
      var S := SforkPrefix(E, cur, c, lim);
      && cur in S && c in S && S[cur] == P
      && (SforkShares(P, lim) ==>
            SforkPrefix(E, cur, c, lim + 1) ==
              S[c := MapPage(S[c], lim, Pte(P.pt[lim].frame, P.pt[lim].perm & PTE_SYSCALL))])
      && (!SforkShares(P, lim) ==> SforkPrefix(E, cur, c, lim + 1) == S)
  {
    var P := E[cur];
    SforkPtStep(P, lim);
    var S := SforkPrefix(E, cur, c, lim);
    assert S[c] == SforkChildEnv(P, cur, lim);
    if SforkShares(P, lim) {
      SforkChildStep(P, cur, lim);
    } else {
      assert SforkChildEnv(P, cur, lim + 1) == SforkChildEnv(P, cur, lim);
    }
  }

  /**
   * On a writable stack page, sfork's duppage of the stack leaves the
   * parent's page trapping on a write exactly when it is not PTE_SHARE,
   * and then the trap is a copy-on-write write fault on the same frame.
   */
  lemma {:induction false} SforkStackFault(E: map<EnvId, Env>, cur: EnvId, c: EnvId)
    requires cur in E && c in E && c != cur && c != 0 && E[c].parentId == cur
    requires StackWritable(E[cur])
    ensures var P := E[cur];
      var D := DupPageSpec(SforkPrefix(E, cur, c, UTOP_PN), cur, c, USTACK_PN);
      D.Some? ==>
      && cur in D.value
      && var Q := D.value[cur];
      && (WriteFaults(Q, USTACK_PN) <==> StackFaults(P))
      && (StackFaults(P) ==>
            && CowWriteFault(Q, USTACKTOP - PGSIZE, FEC_WR)
            && USTACK_PN in Q.pt && Q.pt[USTACK_PN].frame == P.pt[USTACK_PN].frame)
  {
    var P := E[cur];
    var S := SforkPrefix(E, cur, c, UTOP_PN);
    assert S[cur] == P && c in S && S[c].parentId == cur;
    assert PageNumber(USTACKTOP - PGSIZE) == USTACK_PN;
    ChildPermPolicy(P.pt[USTACK_PN].perm);
    DupPageEffect(S, cur, c, USTACK_PN);
    var D := DupPageSpec(S, cur, c, USTACK_PN);
    if D.Some? && Classify(P.pt[USTACK_PN].perm) == CopyOnWritePage {
      assert D.value[cur] == MapPage(P, USTACK_PN, Pte(P.pt[USTACK_PN].frame, PERM_COW));
    }
  }

  /** The parent's environment when sfork returns the child's id; `g` is the frame of its stack copy. */
  function SforkedParent(P: Env, g: nat): Env
  {
    if StackFaults(P) then
      PgfaultEnv(MapPage(P, USTACK_PN, Pte(P.pt[USTACK_PN].frame, PERM_COW)), USTACK_PN, g)
    else P
  }

  /**
   * The child's environment when sfork returns: the shared pages, the
   * stack page as duppage maps it, a fresh exception stack, the upcall,
   * runnable.
   */
  function SforkedChild(P: Env, cur: EnvId, f: nat, entry: nat): Env
    requires USTACK_PN in P.pt
  {
    var st := P.pt[USTACK_PN];
    FinishChild(MapPage(SforkChildEnv(P, cur, UTOP_PN), USTACK_PN, Pte(st.frame, ChildPerm(st.perm))), f, entry)
  }

  /**
   * sfork's duppage of the stack page succeeds exactly when that page is
   * mapped and its child mapping is allowed; the parent's stack fault and
   * the last three calls then give SforkedParent and SforkedChild.
   */
  lemma {:induction false} SforkFinish(E: map<EnvId, Env>, cur: EnvId, c: EnvId, g: nat, f: nat, entry: nat)
    requires cur in E && c in E && c != cur && c != 0 && E[c].parentId == cur
    ensures var P := E[cur];
      var D := DupPageSpec(SforkPrefix(E, cur, c, UTOP_PN), cur, c, USTACK_PN);
      && (D.Some? <==> Present(P, USTACK_PN) && DupPermitted(P.pt[USTACK_PN].perm))
      && (D.Some? ==>
            && cur in D.value && c in D.value
            && var S1 := StackFaulted(D.value, cur, P, g);
            S1[c := FinishChild(S1[c], f, entry)] == E[cur := SforkedParent(P, g)][c := SforkedChild(P, cur, f, entry)])
  {
    var P := E[cur];
    var S := SforkPrefix(E, cur, c, UTOP_PN);
    assert S[cur] == P && c in S && S[c].parentId == cur;
    DupPageEffect(S, cur, c, USTACK_PN);
    var D := DupPageSpec(S, cur, c, USTACK_PN);
    if D.Some? {
      var st := P.pt[USTACK_PN];
      var S2 := D.value;
      assert S2[c] == MapPage(SforkChildEnv(P, cur, UTOP_PN), USTACK_PN, Pte(st.frame, ChildPerm(st.perm)));
      if Classify(st.perm) == CopyOnWritePage {
        assert S2[cur] == MapPage(P, USTACK_PN, Pte(st.frame, PERM_COW));
      } else {
        assert S2[cur] == P;
      }
      var S1 := StackFaulted(S2, cur, P, g);
      assert S1[cur] == SforkedParent(P, g);
      assert S1[c := FinishChild(S1[c], f, entry)] == E[cur := SforkedParent(P, g)][c := SforkedChild(P, cur, f, entry)];
    }
  }

  /**
   * After sfork every mapped page except the two stack pages is in the
   * child with the parent's frame and flags masked by PTE_SYSCALL (shared,
   * not copy-on-write) and the parent keeps it unchanged, PFTEMP aside when
   * the parent's own stack fault unmaps it. The normal stack page alone
   * goes through duppage's copy-on-write policy, after which the parent
   * writes it onto a private copy in frame `g`.
   */
  lemma {:induction false} SforkSharesMemory(P: Env, cur: EnvId, g: nat, f: nat, entry: nat)
    requires Present(P, USTACK_PN)
    ensures var C := SforkedChild(P, cur, f, entry);
      var Q := SforkedParent(P, g);
      var st := P.pt[USTACK_PN];
      && (forall pn | pn in P.pt && SforkShares(P, pn) ::
            && pn in C.pt && C.pt[pn] == Pte(P.pt[pn].frame, P.pt[pn].perm & PTE_SYSCALL)
            && (KeptByParent(P, pn) ==> pn in Q.pt && Q.pt[pn] == P.pt[pn]))
      && (forall pn | pn in C.pt :: pn == USTACK_PN || pn == UXSTACK_PN || (pn in P.pt && SforkShares(P, pn)))
      && USTACK_PN in C.pt && USTACK_PN in Q.pt && UXSTACK_PN in C.pt
      && C.pt[USTACK_PN] == Pte(st.frame, ChildPerm(st.perm))
      && Q.pt[USTACK_PN] == (if Classify(st.perm) == CopyOnWritePage then Pte(g, PERM_PUW) else st)
      && C.pt[UXSTACK_PN] == Pte(f, PERM_PUW)
      && C.status == Runnable && C.upcall == Some(entry) && C.parentId == cur
  {
    var C := SforkedChild(P, cur, f, entry);
    var Q := SforkedParent(P, g);
    var st := P.pt[USTACK_PN];
    var C0 := SforkChildEnv(P, cur, UTOP_PN);
    assert C.pt == C0.pt[USTACK_PN := Pte(st.frame, ChildPerm(st.perm))][UXSTACK_PN := Pte(f, PERM_PUW)];
    if StackFaults(P) {
      assert Q.pt == P.pt[USTACK_PN := Pte(g, PERM_PUW)] - {PFTEMP_PN};
    }
    forall pn | pn in P.pt && SforkShares(P, pn)
      ensures pn in C.pt && C.pt[pn] == Pte(P.pt[pn].frame, P.pt[pn].perm & PTE_SYSCALL)
    {
      assert pn in C0.pt;
    }
  }

  // ---------------------------------------------------------------------
  // pgfault

  /** pgfault's test: a write, to a page whose directory entry is present and that is PTE_P and PTE_COW. */
  predicate CowWriteFault(e: Env, va: nat, err: bv32)
  {
    err & FEC_WR != 0 && DirPresent(e, PageNumber(va))
    && Entry(e, PageNumber(va)) & (PTE_P | PTE_COW) == PTE_P | PTE_COW
  }

  /**
   * The faulting environment after pgfault resolved a fault on page `pn`
   * with the new frame `f`. The PFTEMP page is unmapped afterwards, so a
   * fault on PFTEMP's own page leaves that page unmapped.
   */
  function PgfaultEnv(e: Env, pn: nat, f: nat): Env
  {
    var pgdir := e.pgdir + {DirOf(PFTEMP_PN)};
    if pn == PFTEMP_PN then e.(pgdir := pgdir, pt := e.pt - {PFTEMP_PN})
    else e.(pgdir := pgdir, pt := e.pt[pn := Pte(f, PERM_PUW)] - {PFTEMP_PN})
  }

  /** pgfault's three mappings: PFTEMP mapped, the faulting page remapped, PFTEMP unmapped. */
  lemma PgfaultMappings(e: Env, pn: nat, f: nat)
    requires DirOf(pn) in e.pgdir
    ensures UnmapPage(MapPage(MapPage(e, PFTEMP_PN, Pte(f, PERM_PUW)), pn, Pte(f, PERM_PUW)), PFTEMP_PN)
      == PgfaultEnv(e, pn, f)
  {
    var e1 := MapPage(e, PFTEMP_PN, Pte(f, PERM_PUW));
    var e2 := MapPage(e1, pn, Pte(f, PERM_PUW));
    assert e2.pgdir == e.pgdir + {DirOf(PFTEMP_PN)};
    if pn == PFTEMP_PN {
      assert e2.pt - {PFTEMP_PN} == e.pt - {PFTEMP_PN};
    } else {
      assert e2.pt - {PFTEMP_PN} == e.pt[pn := Pte(f, PERM_PUW)] - {PFTEMP_PN};
    }
  }

  /** The frame store after pgfault: the new frame holds a copy of the faulting page. */
  function PgfaultFrames(frames: map<nat, Page>, e: Env, pn: nat, f: nat): map<nat, Page>
    requires pn in e.pt && e.pt[pn].frame in frames
  {
    if pn == PFTEMP_PN then frames[f := ZeroPage()] else frames[f := frames[e.pt[pn].frame]]
  }

  /**
   * A resolved copy-on-write fault leaves the faulting page on a new
   * private frame, writable and no longer copy-on-write, holding the same
   * bytes; every other frame keeps its bytes, PFTEMP is unmapped and no
   * other page changes.
   */
  lemma PgfaultPrivateCopy(e: Env, frames: map<nat, Page>, va: nat, err: bv32, f: nat)
    requires EnvWf(e, frames) && f !in frames
    requires CowWriteFault(e, va, err) && PageNumber(va) != PFTEMP_PN
    ensures PageNumber(va) in e.pt && e.pt[PageNumber(va)].frame in frames
    ensures PgfaultEnv(e, PageNumber(va), f).pt[PageNumber(va)] == Pte(f, PERM_PUW)
    ensures PERM_PUW & PTE_W != 0 && PERM_PUW & PTE_COW == 0
    ensures PgfaultFrames(frames, e, PageNumber(va), f)[f] == frames[e.pt[PageNumber(va)].frame]
    ensures forall g | g in frames :: g in PgfaultFrames(frames, e, PageNumber(va), f)
              && PgfaultFrames(frames, e, PageNumber(va), f)[g] == frames[g]
    ensures PFTEMP_PN !in PgfaultEnv(e, PageNumber(va), f).pt
    ensures PgfaultEnv(e, PageNumber(va), f).pt.Keys == e.pt.Keys - {PFTEMP_PN}
    ensures forall q | q in e.pt && q != PageNumber(va) && q != PFTEMP_PN ::
              PgfaultEnv(e, PageNumber(va), f).pt[q] == e.pt[q]
    ensures forall q | q in e.pt :: e.pt[q].frame != f
  {
    assert PageNumber(va) in e.pt;
  }

  /** Once a fault is resolved, another write fault on the same page is no longer a copy-on-write fault. */
  lemma RefaultRejected(e: Env, va: nat, err: bv32, f: nat)
    requires PageNumber(va) != PFTEMP_PN
    ensures !CowWriteFault(PgfaultEnv(e, PageNumber(va), f), va, err)
  {
  }
}
