/**
 * The JOS system calls that lib/fork.c uses, as methods on the kernel
 * state. Each is specified only by its effect on the environments' page
 * tables, run states and upcalls, and on the frame store; their bodies
 * follow the argument checks documented for kern/syscall.c, which is not
 * part of this model.
 */
module Syscall {
  import opened Base
  import opened Mmu
  import opened AddrSpace

  /** Error numbers of inc/error.h, returned negated. */
  const E_BAD_ENV: int := 2
  const E_INVAL: int := 3
  const E_NO_MEM: int := 4
  const E_NO_FREE_ENV: int := 5

  /** sys_exofork's discriminator: the child's id in the parent, 0 in the child. */
  datatype Discriminator = Parent(child: EnvId) | Child

  /** Which of the two contexts resuming from sys_exofork a run follows. */
  datatype Side = InParent | InChild

  /** The status sys_page_alloc returns, 0 on success. */
  function PageAllocStatus(envs: map<EnvId, Env>, cur: EnvId, envid: EnvId, va: nat,
                           perm: bv32, haveFrame: bool): (r: int)
    requires cur in envs
    ensures r == 0 <==> Resolve(envs, cur, envid).Some? && VaOk(va) && PermOk(perm) && haveFrame
    ensures r in {0, -E_BAD_ENV, -E_INVAL, -E_NO_MEM}
  {
    if Resolve(envs, cur, envid).None? then -E_BAD_ENV
    else if !VaOk(va) || !PermOk(perm) then -E_INVAL
    else if !haveFrame then -E_NO_MEM
    else 0
  }

  /** The status sys_page_map returns, 0 on success. */
  function PageMapStatus(envs: map<EnvId, Env>, cur: EnvId, srcenvid: EnvId, srcva: nat,
                         dstenvid: EnvId, dstva: nat, perm: bv32): (r: int)
    requires cur in envs
    ensures r == 0 <==>
      && Resolve(envs, cur, srcenvid).Some? && Resolve(envs, cur, dstenvid).Some?
      && VaOk(srcva) && VaOk(dstva) && PermOk(perm)
      && var src := envs[Resolve(envs, cur, srcenvid).value];
         Present(src, PageNumber(srcva))
         && (perm & PTE_W != 0 ==> src.pt[PageNumber(srcva)].perm & PTE_W != 0)
    ensures r in {0, -E_BAD_ENV, -E_INVAL}
  {
    var s := Resolve(envs, cur, srcenvid);
    var d := Resolve(envs, cur, dstenvid);
    if s.None? || d.None? then -E_BAD_ENV
    else if !VaOk(srcva) || !VaOk(dstva) then -E_INVAL
    else if !Present(envs[s.value], PageNumber(srcva)) then -E_INVAL
    else if !PermOk(perm) then -E_INVAL
    else if perm & PTE_W != 0 && envs[s.value].pt[PageNumber(srcva)].perm & PTE_W == 0 then -E_INVAL
    else 0
  }

  /**
   * The kernel state: the live environments, the running one, the frame
   * store, and the allocators. A fresh frame is numbered `nextFrame` and
   * `freePages` frames are left; a fresh environment gets id `nextEnvId`
   * and `freeEnvs` environment slots are left.
   */
  class Kernel {
    var envs: map<EnvId, Env>
    var curenv: EnvId
    var frames: map<nat, Page>
    var nextFrame: nat
    var freePages: nat
    var nextEnvId: EnvId
    var freeEnvs: nat

    ghost predicate Valid()
      reads this
    {
      KernelWf(envs, curenv, frames, nextFrame, nextEnvId)
    }

    /** The frame allocator's state. */
    function FramePool(): (nat, nat)
      reads this
    {
      (nextFrame, freePages)
    }

    /** The environment allocator's state. */
    function EnvPool(): (EnvId, nat)
      reads this
    {
      (nextEnvId, freeEnvs)
    }

    /** A kernel whose only environment `id` runs with the given page table. */
    constructor Boot(id: EnvId, e: Env, store: map<nat, Page>, top: nat, pages: nat, slots: nat)
      requires id > 0 && EnvWf(e, store) && forall f | f in store :: f < top
      ensures Valid()
      ensures envs == map[id := e] && curenv == id && frames == store
      ensures freePages == pages && freeEnvs == slots
    {
      envs, curenv, frames := map[id := e], id, store;
      nextFrame, freePages, nextEnvId, freeEnvs := top, pages, id + 1, slots;
    }

    /**
     * sys_page_alloc: map a fresh zero-filled frame at `va` in `envid`,
     * replacing whatever was mapped there.
     */
    method SysPageAlloc(envid: EnvId, va: nat, perm: bv32) returns (r: int)
      requires Valid()
      modifies this
      ensures Valid()
      ensures curenv == old(curenv) && EnvPool() == old(EnvPool())
      ensures r == PageAllocStatus(old(envs), curenv, envid, va, perm, old(freePages) > 0)
      ensures r != 0 ==> envs == old(envs) && frames == old(frames) && FramePool() == old(FramePool())
      ensures r == 0 ==>
        var id := Resolve(old(envs), curenv, envid).value;
        var f := old(nextFrame);
        && f !in old(frames)
        && frames == old(frames)[f := ZeroPage()]
        && FramePool() == (f + 1, old(freePages) - 1)
        && envs == old(envs)[id := MapPage(old(envs)[id], PageNumber(va), Pte(f, perm))]
    {
      r := PageAllocStatus(envs, curenv, envid, va, perm, freePages > 0);
      if r != 0 {
        return;
      }
      var id := Resolve(envs, curenv, envid).value;
      var f := nextFrame;
      var pn := PageNumber(va);
      frames := frames[f := ZeroPage()];
      nextFrame, freePages := nextFrame + 1, freePages - 1;
      envs := envs[id := MapPage(envs[id], pn, Pte(f, perm))];
    }

    /**
     * sys_page_map: map the frame behind `srcva` in `srcenvid` at `dstva`
     * in `dstenvid` with `perm`.
     */
    method SysPageMap(srcenvid: EnvId, srcva: nat, dstenvid: EnvId, dstva: nat, perm: bv32)
      returns (r: int)
      requires Valid()
      modifies this
      ensures Valid()
      ensures curenv == old(curenv) && frames == old(frames)
      ensures FramePool() == old(FramePool()) && EnvPool() == old(EnvPool())
      ensures r == PageMapStatus(old(envs), curenv, srcenvid, srcva, dstenvid, dstva, perm)
      ensures r != 0 ==> envs == old(envs)
      ensures r == 0 ==>
        var s := Resolve(old(envs), curenv, srcenvid).value;
        var d := Resolve(old(envs), curenv, dstenvid).value;
        var f := old(envs)[s].pt[PageNumber(srcva)].frame;
        envs == old(envs)[d := MapPage(old(envs)[d], PageNumber(dstva), Pte(f, perm))]
    {
      r := PageMapStatus(envs, curenv, srcenvid, srcva, dstenvid, dstva, perm);
      if r != 0 {
        return;
      }
      var s := Resolve(envs, curenv, srcenvid).value;
      var d := Resolve(envs, curenv, dstenvid).value;
      var f := envs[s].pt[PageNumber(srcva)].frame;
      envs := envs[d := MapPage(envs[d], PageNumber(dstva), Pte(f, perm))];
    }

    /** sys_page_unmap: remove the mapping at `va` in `envid`, if any. */
    method SysPageUnmap(envid: EnvId, va: nat) returns (r: int)
      requires Valid()
      modifies this
      ensures Valid()
      ensures curenv == old(curenv) && frames == old(frames)
      ensures FramePool() == old(FramePool()) && EnvPool() == old(EnvPool())
      ensures r == (if Resolve(old(envs), curenv, envid).None? then -E_BAD_ENV
                    else if !VaOk(va) then -E_INVAL else 0)
      ensures r != 0 ==> envs == old(envs)
      ensures r == 0 ==>
        var id := Resolve(old(envs), curenv, envid).value;
        envs == old(envs)[id := UnmapPage(old(envs)[id], PageNumber(va))]
    {
      var o := Resolve(envs, curenv, envid);
      if o.None? {
        return -E_BAD_ENV;
      }
      if !VaOk(va) {
        return -E_INVAL;
      }
      envs := envs[o.value := UnmapPage(envs[o.value], PageNumber(va))];
      r := 0;
    }

    /**
     * sys_exofork: create a child with no user mappings, not runnable. The
     * call returns in both contexts; `side` says which one this run follows.
     */
    method SysExofork(side: Side) returns (r: ExoforkResult)
      requires Valid()
      modifies this
      ensures Valid()
      ensures curenv == old(curenv) && frames == old(frames) && FramePool() == old(FramePool())
      ensures old(freeEnvs) == 0 ==> r == Failed(-E_NO_FREE_ENV) && envs == old(envs)
                                     && EnvPool() == old(EnvPool())
      ensures old(freeEnvs) > 0 ==>
        var c := old(nextEnvId);
        && c !in old(envs) && c > 0
        && envs == old(envs)[c := NewEnv(curenv)]
        && EnvPool() == (c + 1, old(freeEnvs) - 1)
        && r == Forked(if side == InParent then Parent(c) else Child)
    {
      if freeEnvs == 0 {
        return Failed(-E_NO_FREE_ENV);
      }
      var c := nextEnvId;
      envs := envs[c := NewEnv(curenv)];
      nextEnvId, freeEnvs := nextEnvId + 1, freeEnvs - 1;
      r := Forked(if side == InParent then Parent(c) else Child);
    }

    /** sys_env_set_pgfault_upcall: register `func` as `envid`'s page fault entry point. */
    method SysEnvSetPgfaultUpcall(envid: EnvId, func: nat) returns (r: int)
      requires Valid()
      modifies this
      ensures Valid()
      ensures curenv == old(curenv) && frames == old(frames)
      ensures FramePool() == old(FramePool()) && EnvPool() == old(EnvPool())
      ensures r == (if Resolve(old(envs), curenv, envid).None? then -E_BAD_ENV else 0)
      ensures r != 0 ==> envs == old(envs)
      ensures r == 0 ==>
        var id := Resolve(old(envs), curenv, envid).value;
        envs == old(envs)[id := old(envs)[id].(upcall := Some(func))]
    {
      var o := Resolve(envs, curenv, envid);
      if o.None? {
        return -E_BAD_ENV;
      }
      envs := envs[o.value := envs[o.value].(upcall := Some(func))];
      r := 0;
    }

    /** sys_env_set_status: only ENV_RUNNABLE and ENV_NOT_RUNNABLE may be requested. */
    method SysEnvSetStatus(envid: EnvId, status: EnvStatus) returns (r: int)
      requires Valid()
      modifies this
      ensures Valid()
      ensures curenv == old(curenv) && frames == old(frames)
      ensures FramePool() == old(FramePool()) && EnvPool() == old(EnvPool())
      ensures r == (if Resolve(old(envs), curenv, envid).None? then -E_BAD_ENV
                    else if status != Runnable && status != NotRunnable then -E_INVAL else 0)
      ensures r != 0 ==> envs == old(envs)
      ensures r == 0 ==>
        var id := Resolve(old(envs), curenv, envid).value;
        envs == old(envs)[id := old(envs)[id].(status := status)]
    {
      var o := Resolve(envs, curenv, envid);
      if o.None? {
        return -E_BAD_ENV;
      }
      if status != Runnable && status != NotRunnable {
        return -E_INVAL;
      }
      envs := envs[o.value := envs[o.value].(status := status)];
      r := 0;
    }

    /**
     * memmove(dstva, srcva, PGSIZE) run by the current environment: the
     * frame behind `dstva` receives the bytes of the frame behind `srcva`.
     * Both pages must be mapped and the destination writable, or the copy
     * would fault.
     */
    method CopyPage(dstva: nat, srcva: nat)
      requires Valid()
      requires Present(envs[curenv], PageNumber(dstva))
      requires envs[curenv].pt[PageNumber(dstva)].perm & PTE_W != 0
      requires Present(envs[curenv], PageNumber(srcva))
      modifies this
      ensures Valid()
      ensures envs == old(envs) && curenv == old(curenv)
      ensures FramePool() == old(FramePool()) && EnvPool() == old(EnvPool())
      ensures var e := old(envs)[curenv];
        frames == old(frames)[e.pt[PageNumber(dstva)].frame := old(frames)[e.pt[PageNumber(srcva)].frame]]
    {
      var e := envs[curenv];
      var d := e.pt[PageNumber(dstva)].frame;
      var s := e.pt[PageNumber(srcva)].frame;
      frames := frames[d := frames[s]];
    }
  }

  /** What sys_exofork returns: a discriminator, or a negative error. */
  datatype ExoforkResult = Forked(d: Discriminator) | Failed(code: int)
}
