/**
 * The abstract machine state seen by the JOS fork library: environments,
 * each with a two-level page table, and a store of physical frames.
 */
module AddrSpace {
  import opened Base
  import opened Mmu

  /** envid_t; 0 names the calling environment. */
  type EnvId = int

  /** The bytes of one physical frame. */
  type Page = s: seq<bv8> | |s| == PGSIZE witness seq(4096, _ => 0)

  /** A frame as page_alloc(ALLOC_ZERO) hands it out. */
  function ZeroPage(): (p: Page)
    ensures forall i | 0 <= i < |p| :: p[i] == 0
  {
    seq(PGSIZE, _ => 0)
  }

  /** A page table entry: the frame it points to and its permission bits. */
  datatype Pte = Pte(frame: nat, perm: bv32)

  /** env_status values an existing environment can have. */
  datatype EnvStatus = NotRunnable | Runnable | Running | Dying

  /**
   * One environment: its parent, run state, the set of present page
   * directory entries, the page table entries below UTOP (keyed by page
   * number) and its registered page fault upcall.
   */
  datatype Env = Env(parentId: EnvId, status: EnvStatus, pgdir: set<nat>,
                     pt: map<nat, Pte>, upcall: Option<nat>)

  /** The environment env_alloc hands back: no user mappings, no upcall, not runnable. */
  function NewEnv(parent: EnvId): (e: Env)
    ensures e.pt == map[] && e.status == NotRunnable && e.upcall == None
  {
    Env(parent, NotRunnable, {}, map[], None)
  }

  /** uvpt[pn]: the flag bits of page `pn`'s entry, 0 if there is none. */
  function Entry(e: Env, pn: nat): bv32
  {
    if pn in e.pt then e.pt[pn].perm else 0
  }

  /** uvpd[PDX(pn * PGSIZE)] & PTE_P */
  predicate DirPresent(e: Env, pn: nat)
  {
    DirOf(pn) in e.pgdir
  }

  /** Page `pn` is mapped: present at both the directory and the table level. */
  predicate Present(e: Env, pn: nat)
  {
    DirPresent(e, pn) && pn in e.pt && e.pt[pn].perm & PTE_P != 0
  }

  /** page_insert: install `pte` at page `pn`, creating its page table if needed. */
  function MapPage(e: Env, pn: nat, pte: Pte): Env
  {
    e.(pgdir := e.pgdir + {DirOf(pn)}, pt := e.pt[pn := pte])
  }

  /** page_remove: drop the entry of page `pn` (the page table itself stays). */
  function UnmapPage(e: Env, pn: nat): Env
  {
    e.(pt := e.pt - {pn})
  }

  /** The page directory indices covering a set of pages. */
  function DirsOf(pns: set<nat>): set<nat>
  {
    set pn | pn in pns :: DirOf(pn)
  }

  /** Every entry lies below UTOP and points at a stored frame. */
  ghost predicate EnvWf(e: Env, frames: map<nat, Page>)
  {
    forall pn | pn in e.pt :: pn < UTOP_PN && e.pt[pn].frame in frames
  }

  /**
   * The kernel's bookkeeping is consistent: the current environment
   * exists, every environment is well formed, and the next environment id
   * and the next frame number are above every one in use.
   */
  ghost predicate KernelWf(envs: map<EnvId, Env>, cur: EnvId, frames: map<nat, Page>,
                           nextFrame: nat, nextEnvId: EnvId)
  {
    && cur in envs
    && (forall id | id in envs :: 0 < id < nextEnvId && EnvWf(envs[id], frames))
    && (forall f | f in frames :: f < nextFrame)
  }

  /**
   * envid2env with the permission check: 0 is the caller; any other id must
   * name an existing environment that is the caller or one of its children.
   */
  function Resolve(envs: map<EnvId, Env>, cur: EnvId, envid: EnvId): (r: Option<EnvId>)
    requires cur in envs
    ensures r.Some? ==> r.value in envs
    ensures envid == 0 ==> r == Some(cur)
    ensures envid != 0 ==>
      (r.Some? <==> envid in envs && (envid == cur || envs[envid].parentId == cur))
  {
    if envid == 0 then Some(cur)
    else if envid in envs && (envid == cur || envs[envid].parentId == cur) then Some(envid)
    else None
  }
}
