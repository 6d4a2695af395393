# JOS: copy-on-write fork, the E1000 driver and the kernel monitor

A Dafny model of three pieces of the JOS teaching kernel (2019 spring labs):

- **lib/fork.c** (lab 5), the user-level copy-on-write `fork`. This covers
  `pgfault`, `duppage`, `fork` and `sfork`. They run as methods on a `Kernel`
  object (module `Syscall`) whose state is the environments and the frame store:
  - each environment has a page directory and page table entries below UTOP;
  - each frame holds the bytes of one page.

  The `sys_*` calls the library makes are methods of that object. Each one
  states its whole new state. Module `ForkSpec` defines, as functions of the
  state before the call, what each library routine leaves behind. It proves
  the copy-on-write properties about those functions:
  - parent and child share frames;
  - no page the two sides share copy-on-write stays writable;
  - shared pages keep their flags;
  - the exception stack is a fresh private page;
  - the parent's own write to its now copy-on-write stack moves it to a private copy;
  - a resolved fault leaves a private writable copy.

  Module `ForkLib` holds the library routines. Each is proved against those
  functions.
- **kern/e1000.c** (lab 6), the Intel 82540 network driver. The class
  `E1000.Driver` holds:
  - the descriptor rings (arrays of descriptors);
  - the packet buffers (two-dimensional byte arrays);
  - the card's TDBAL/TDLEN/TDH/TDT, RDBAL/RDLEN/RDH/RDT, RAL/RAH and the
    multicast table.

  `TxInit`, `RxInit`, `Tx` and `Rx` update these in place. Two more methods
  play the card's part, `NicTransmit` and `NicReceive`. Both follow the
  descriptor ownership rules of the Intel 8254x manual, sections 3.2 and 3.3.
  Each method is tied to a pure ring function (`TxSend`, `TxComplete`,
  `RxRecv`, `RxArrive`). Lemmas over those functions prove that ring
  ownership (`TxRingWf`, `RxRingWf`) is kept by the driver and the card alike.
- **kern/monitor.c** (lab 6), the kernel monitor:
  - `runcmd`'s tokenizer works in place on a NUL-terminated character array,
    and its dispatch goes over `commands[]`;
  - `mon_setpermission` updates a page table entry in place;
  - the modelled parts of `mon_showmappings`, `mon_dumpva` and `mon_dumppa`
    are their argument checks, the walk, and the bytes each command reports.

  The tokenizer is proved against a pure account of the line: `TokenStarts`
  lists where the arguments begin, and `Words` gives the strings they denote.

The foreign parts are parameters: hex parsing (`strtol`), `pgdir_walk`, the
memory a dump reads, and the command bodies that `runcmd` dispatches to.
Console output is not modelled. Integers are unbounded. The constants of JOS's
headers (inc/mmu.h, inc/memlayout.h, inc/error.h, kern/e1000.h) are restated in
`Mmu`, `Syscall` and `E1000`. Those headers are not part of this model.

## Model

| member | source | states |
|---|---|---|
| AddrSpace.ZeroPage | lab5/jos-2019-spring/lib/fork.c:152 | a frame from the allocator is all zero bytes |
| AddrSpace.NewEnv | lab5/jos-2019-spring/lib/fork.c:133 | the environment sys_exofork creates has no mappings, no upcall and is not runnable |
| AddrSpace.Resolve | lab5/jos-2019-spring/lib/fork.c:81 | envid 0 names the caller; another id resolves exactly when it is the caller or one of its children |
| Syscall.PageAllocStatus | lab5/jos-2019-spring/lib/fork.c:43-46 | sys_page_alloc succeeds exactly when the env resolves, the address is page aligned below UTOP, the flags are allowed and a frame is free; otherwise one of -E_BAD_ENV, -E_INVAL, -E_NO_MEM |
| Syscall.PageMapStatus | lab5/jos-2019-spring/lib/fork.c:81-84 | sys_page_map succeeds exactly when both envs resolve, both addresses are valid, the source page is present, the flags are allowed and PTE_W is asked only of a writable source |
| Syscall.Kernel.SysPageAlloc | lab5/jos-2019-spring/lib/fork.c:43-46 | on success a fresh zeroed frame is mapped at the page with the given flags and nothing else changes; on failure nothing changes |
| Syscall.Kernel.SysPageMap | lab5/jos-2019-spring/lib/fork.c:51-54 | on success the destination page maps the source page's frame with the given flags and nothing else changes |
| Syscall.Kernel.SysPageUnmap | lab5/jos-2019-spring/lib/fork.c:56-59 | the page's entry is removed and nothing else changes |
| Syscall.Kernel.SysExofork | lab5/jos-2019-spring/lib/fork.c:133-142 | a new child of the caller with an empty address space; the parent sees its id, the child sees 0; no free slot gives -E_NO_FREE_ENV |
| Syscall.Kernel.SysEnvSetPgfaultUpcall | lab5/jos-2019-spring/lib/fork.c:157-160 | only the target's upcall changes |
| Syscall.Kernel.SysEnvSetStatus | lab5/jos-2019-spring/lib/fork.c:162-165 | only the target's status changes, and only to RUNNABLE or NOT_RUNNABLE |
| Syscall.Kernel.CopyPage | lab5/jos-2019-spring/lib/fork.c:48-49 | the frame behind the destination page receives the bytes of the frame behind the source page |
| ForkSpec.Classify | lab5/jos-2019-spring/lib/fork.c:79-86 | PTE_SHARE first, then PTE_W or PTE_COW, then read-only, in both directions |
| ForkSpec.ChildPermPolicy | lab5/jos-2019-spring/lib/fork.c:79-103 | only a shared page can reach the child writable; a copy-on-write page is marked COW; the non-shared flag sets are always accepted by sys_page_map |
| ForkSpec.DupPageEffect | lab5/jos-2019-spring/lib/fork.c:73-106 | duppage succeeds exactly on a present page whose child flags are allowed; both sides then map the same frame with the flags of each case; no other page or environment changes |
| ForkSpec.ForkPrefixKeepsStatus | lab5/jos-2019-spring/lib/fork.c:144-150 | fork's loop creates no environment and changes no run state |
| ForkSpec.DirsOfAdd | lab5/jos-2019-spring/lib/fork.c:146-148 | adding a page to the child adds its directory index |
| ForkSpec.ForkPrefixStart | lab5/jos-2019-spring/lib/fork.c:144 | before the loop, the loop's state is the state after sys_exofork |
| ForkSpec.ForkPtStep | lab5/jos-2019-spring/lib/fork.c:144-150 | one page more of the loop adds exactly that page to the child, and remaps it COW in the parent when it is writable or COW |
| ForkSpec.ForkChildStep | lab5/jos-2019-spring/lib/fork.c:146-148 | duppage's child mapping advances the child's state by one page |
| ForkSpec.ForkParentStep | lab5/jos-2019-spring/lib/fork.c:92-95 | duppage's parent remapping advances the parent's state by one page |
| ForkSpec.ForkStep | lab5/jos-2019-spring/lib/fork.c:144-150 | page `lim` goes to duppage exactly when it is mapped, below UTOP and not the exception stack; duppage then takes the loop state for `lim` to the one for `lim + 1` |
| ForkSpec.ForkStackFault | lab5/jos-2019-spring/lib/fork.c:86-95 | after the loop the parent's writable stack page traps on a write exactly when it is not PTE_SHARE, and then it is a present COW page on the old frame, the fault pgfault resolves |
| ForkSpec.ForkFinish | lab5/jos-2019-spring/lib/fork.c:144-165 | the parent's stack fault, when there is one, and fork's last three calls turn the loop's final state into ForkedParent and ForkedChild |
| ForkSpec.ForkSharesFrames | lab5/jos-2019-spring/lib/fork.c:144-167 | the child maps exactly the duplicated pages plus its exception stack, on the parent's frames; the parent loses only PFTEMP, and only when its stack faulted; every parent page other than the stack page and PFTEMP keeps its frame if duplicated and its whole entry if not |
| ForkSpec.ForkRemovesWrite | lab5/jos-2019-spring/lib/fork.c:86-105 | no duplicated non-shared page is writable in the child, nor in the parent apart from its faulted stack page; COW pages are U, P and COW on both sides; read-only pages reach the child U and P and the parent keeps them |
| ForkSpec.ForkParentStackCopy | lab5/jos-2019-spring/lib/fork.c:29-59 | when the parent's stack faulted it ends on a private U, P, W copy in the new frame holding the old bytes while the child keeps the old frame COW; no other page of either side uses the new frame and PFTEMP is unmapped |
| ForkSpec.ForkKeepsSharedPages | lab5/jos-2019-spring/lib/fork.c:79-85 | a PTE_SHARE page reaches the child with the same frame and flags masked by PTE_SYSCALL; the parent's entry is unchanged (PFTEMP aside when the stack faulted) |
| ForkSpec.ForkFreshExceptionStack | lab5/jos-2019-spring/lib/fork.c:152-165 | the child's exception stack is a private writable non-COW page on a frame no other page uses; the child is runnable with the upcall |
| ForkSpec.SforkPrefixKeepsStatus | lab5/jos-2019-spring/lib/fork.c:190-202 | sfork's loop creates no environment and changes no run state or parent |
| ForkSpec.SforkPrefixStart | lab5/jos-2019-spring/lib/fork.c:190 | before sfork's loop, its state is the state after sys_exofork |
| ForkSpec.SforkPtStep | lab5/jos-2019-spring/lib/fork.c:190-202 | one page more of sfork's loop adds exactly that page when it is shared |
| ForkSpec.SforkChildStep | lab5/jos-2019-spring/lib/fork.c:194-199 | sfork's mapping advances the child's state by one page |
| ForkSpec.SforkStep | lab5/jos-2019-spring/lib/fork.c:190-202 | a page other than the two stack pages that is mapped goes to the child with the same frame and masked flags; the parent is untouched |
| ForkSpec.SforkStackFault | lab5/jos-2019-spring/lib/fork.c:204-207 | after sfork's duppage of the stack page the parent's stack traps on a write exactly when the page is not PTE_SHARE, and then it is a present COW page on the old frame |
| ForkSpec.SforkFinish | lab5/jos-2019-spring/lib/fork.c:204-222 | the stack page's duppage succeeds exactly when the page is mapped and its child flags are allowed; the parent's stack fault and the last three calls then give SforkedParent and SforkedChild |
| ForkSpec.SforkSharesMemory | lab5/jos-2019-spring/lib/fork.c:190-224 | every mapped page except the two stack pages is in the child with the parent's frame and masked flags and unchanged in the parent (PFTEMP aside); the child has nothing else but the stack page, duppage'd, and a fresh exception stack; the parent's stack is its copy in the new frame when it faulted; the child is runnable with the upcall |
| ForkSpec.PgfaultMappings | lab5/jos-2019-spring/lib/fork.c:43-59 | the three calls (map PFTEMP, map the page, unmap PFTEMP) give PgfaultEnv |
| ForkSpec.PgfaultPrivateCopy | lab5/jos-2019-spring/lib/fork.c:29-59 | after a copy-on-write write fault the page sits on a new frame, P, U and W and not COW, holding the old bytes; no other frame or page changes and PFTEMP is unmapped |
| ForkSpec.RefaultRejected | lab5/jos-2019-spring/lib/fork.c:29-34 | once resolved, the page no longer passes pgfault's copy-on-write test |
| ForkLib.Pgfault | lab5/jos-2019-spring/lib/fork.c:15-60 | panics with nothing changed unless it is a write to a present COW page and a frame is free; otherwise the state is PgfaultEnv and PgfaultFrames |
| ForkLib.DupPage | lab5/jos-2019-spring/lib/fork.c:73-106 | panics exactly when DupPageSpec does; otherwise the environments are DupPageSpec's |
| ForkLib.FinishFork | lab5/jos-2019-spring/lib/fork.c:152-165 | the child gets a fresh zeroed exception stack, the upcall and RUNNABLE; it panics only when no frame is free |
| ForkLib.DupIfMapped | lab5/jos-2019-spring/lib/fork.c:146-149 | one loop iteration takes ForkPrefix for page n to ForkPrefix for n + 1, or panics exactly when the page cannot be duplicated |
| ForkLib.DupAddressSpace | lab5/jos-2019-spring/lib/fork.c:144-150 | the loop completes exactly when every page it passes can be duplicated, ending in ForkPrefix for UTOP; no run state changes either way |
| ForkLib.StackWrite | lab5/jos-2019-spring/lib/fork.c:15-60 | a write to the stack page goes through on a present writable page; otherwise it is pgfault on that address: a panic with nothing changed, or the page moved to a private copy in the next frame |
| ForkLib.Fork | lab5/jos-2019-spring/lib/fork.c:124-168 | the child side returns 0; the parent side completes exactly when every page can be duplicated and a frame is free for each of the stack copy and the exception stack, and then installs ForkedParent and ForkedChild with ForkFrames; on a panic no new environment is runnable |
| ForkLib.ForkInParent | lab5/jos-2019-spring/lib/fork.c:144-167 | the parent's part of fork after sys_exofork, with the same outcomes as Fork |
| ForkLib.WriteStackAndFinish | lab5/jos-2019-spring/lib/fork.c:152-165 | the parent's stack write and the last three calls complete exactly when enough frames are free, giving StackFaulted followed by FinishChild and ForkFrames |
| ForkLib.SharePageStep | lab5/jos-2019-spring/lib/fork.c:196-199 | sfork's mapping call succeeds exactly when the masked flags are allowed, and then gives the next loop state |
| ForkLib.ShareIfMapped | lab5/jos-2019-spring/lib/fork.c:192-201 | one sfork loop iteration takes SforkPrefix for page n to n + 1, or panics exactly when the masked flags are refused |
| ForkLib.ShareAddressSpace | lab5/jos-2019-spring/lib/fork.c:190-202 | sfork's loop completes exactly when every shared page's masked flags are allowed, ending in SforkPrefix for UTOP |
| ForkLib.SFork | lab5/jos-2019-spring/lib/fork.c:171-225 | the child side returns 0; the parent side completes exactly when every shared page's masked flags and the stack page's child flags are allowed and enough frames are free, and then installs SforkedParent and SforkedChild with ForkFrames; a panic leaves no new environment runnable |
| ForkLib.SForkInParent | lab5/jos-2019-spring/lib/fork.c:190-224 | the parent's part of sfork after sys_exofork, with the same outcomes as SFork |
| ForkLib.DupStackAndFinish | lab5/jos-2019-spring/lib/fork.c:204-222 | from the end of sfork's loop, the stack page's duppage, the stack write and the last three calls give SforkedParent and SforkedChild |
| ForkLib.DupStack | lab5/jos-2019-spring/lib/fork.c:204-207 | sfork's duppage of the stack page is DupPageSpec's and leaves the parent's stack page faulting exactly when it is not PTE_SHARE |
| E1000.Next | lab6/jos-2019-spring/kern/e1000.c:147 | the next ring slot wraps from 255 to 0 and stays below N_TXDESC |
| E1000.TxHandOver | lab6/jos-2019-spring/kern/e1000.c:142-145 | the handed-over descriptor keeps its buffer address, has length len, RS and EOP set and DD clear |
| E1000.TxSend | lab6/jos-2019-spring/kern/e1000.c:128-148 | TDT stays inside the ring whatever happens |
| E1000.TxSendOutcomes | lab6/jos-2019-spring/kern/e1000.c:128-148 | -E_INVAL exactly for NULL or len > 1518; -E_AGAIN exactly when TDT's descriptor lacks DD; failures change nothing; success hands over TDT's descriptor only and advances TDT by one modulo 256 |
| E1000.TxComplete | lab6/jos-2019-spring/kern/e1000.c:143 | the card's step keeps TDH inside the ring |
| E1000.TxInitWf | lab6/jos-2019-spring/kern/e1000.c:40-50 | after tx_init every descriptor is free and no packet is pending |
| E1000.DistNext | lab6/jos-2019-spring/kern/e1000.c:147 | advancing the tail by one adds one to the distance from the head, modulo 256 |
| E1000.DistFromNext | lab6/jos-2019-spring/kern/e1000.c:147 | advancing the head by one takes one from the distance to the tail, modulo 256 |
| E1000.TxSendKeepsWf | lab6/jos-2019-spring/kern/e1000.c:133-147 | a successful send adds one pending packet and keeps ring ownership; a refusal keeps the ring; a full ring always refuses |
| E1000.TxCompleteKeepsWf | lab6/jos-2019-spring/kern/e1000.c:143 | the card finishing a packet removes one pending packet and keeps ring ownership; an empty or a full ring does not move |
| E1000.TxFullRingStalls | lab6/jos-2019-spring/kern/e1000.c:133-137 | with 256 packets pending TDH == TDT: the card sees nothing to send and e1000_tx only returns errors |
| E1000.TxSendMany | lab6/jos-2019-spring/kern/e1000.c:147 | repeated sends keep the ring's shape |
| E1000.TxFillsRing | lab6/jos-2019-spring/kern/e1000.c:40-50 | after tx_init, 256 valid packets in a row are all accepted and fill the ring |
| E1000.RxRelease | lab6/jos-2019-spring/kern/e1000.c:177-178 | the released descriptor keeps its address and length, with DD and EOP clear |
| E1000.RxNextSlot | lab6/jos-2019-spring/kern/e1000.c:165-166 | the slot read is inside the ring |
| E1000.RxRecv | lab6/jos-2019-spring/kern/e1000.c:159-180 | receiving keeps the ring's shape |
| E1000.RxArrive | lab6/jos-2019-spring/kern/e1000.c:179 | the card's store keeps the ring's shape |
| E1000.RxInitWf | lab6/jos-2019-spring/kern/e1000.c:91-101 | after rx_init the receive ring is consistent and empty, and slot 0 is read first |
| E1000.RxRecvOutcomes | lab6/jos-2019-spring/kern/e1000.c:159-180 | a panic exactly for NULL or len > 2048; -E_AGAIN exactly when no packet is waiting; otherwise the waiting packet's length whatever len is; every result but that one leaves the ring unchanged |
| E1000.RxIgnoresLen | lab6/jos-2019-spring/kern/e1000.c:159-175 | every len up to 2048 gives the same result and ring, and a returned length is at most 2048 |
| E1000.RxRecvKeepsWf | lab6/jos-2019-spring/kern/e1000.c:165-180 | taking a packet gives its slot back to the card, leaves one packet fewer and keeps ring ownership |
| E1000.RxArriveKeepsWf | lab6/jos-2019-spring/kern/e1000.c:179 | the card drops a packet exactly when every slot but RDT's is filled; otherwise it stores it and keeps ring ownership |
| E1000.RxDeliversArrival | lab6/jos-2019-spring/kern/e1000.c:165-180 | a packet stored into an empty ring is the next one e1000_rx returns, with its length, for any len up to 2048 |
| E1000.MacFromEeprom | lab6/jos-2019-spring/kern/e1000.c:79-84 | the MAC address has six bytes |
| E1000.ReceiveAddressIsMac | lab6/jos-2019-spring/kern/e1000.c:76-84 | RAL's four bytes and RAH's low two are the six bytes of e1000_mac_address in order, and RAH's upper address bytes are zero |
| E1000.NewTxDescs | lab6/jos-2019-spring/kern/e1000.c:38-44 | a fresh descriptor page where descriptor i points at buffer i and has DD set |
| E1000.NewRxDescs | lab6/jos-2019-spring/kern/e1000.c:91-95 | a fresh descriptor page where descriptor i points at buffer i |
| E1000.StoreMac | lab6/jos-2019-spring/kern/e1000.c:79-84 | each EEPROM word lands low byte first in e1000_mac_address |
| E1000.ClearTable | lab6/jos-2019-spring/kern/e1000.c:86-89 | every multicast table entry is zero |
| E1000.Driver.Attach | lab6/jos-2019-spring/kern/e1000.c:109-121 | after attach both rings are in their initial state and the MAC registers are programmed |
| E1000.Driver.TxInit | lab6/jos-2019-spring/kern/e1000.c:28-57 | the transmit ring is TxInitDescs with TDH = TDT = 0, TDLEN = PGSIZE; the receive side is untouched |
| E1000.Driver.ProgramReceiveAddress | lab6/jos-2019-spring/kern/e1000.c:76-77 | RAL and RAH are set from the EEPROM words and no other field changes |
| E1000.Driver.RxInit | lab6/jos-2019-spring/kern/e1000.c:63-107 | RAL/RAH and the MAC address as above, the multicast table zeroed, the receive ring is RxInitDescs with RDH = 0 and RDT = 255; the transmit side is untouched |
| E1000.Driver.Tx | lab6/jos-2019-spring/kern/e1000.c:123-149 | the result and ring are TxSend's; on success the old TDT's buffer holds the len bytes followed by zeros, and no other buffer, register or table changes |
| E1000.Driver.NicTransmit | lab6/jos-2019-spring/kern/e1000.c:147 | the card sends the packet at TDH, if there is one (the first `length` bytes of that buffer); the ring becomes TxComplete's and nothing else changes |
| E1000.Driver.Rx | lab6/jos-2019-spring/kern/e1000.c:151-181 | the result and ring are RxRecv's; on success the caller's buffer starts with the whole packet of the slot after the old RDT, and the rest of it is unchanged; no other register, buffer or table changes |
| E1000.Driver.NicReceive | lab6/jos-2019-spring/kern/e1000.c:179 | the card stores a frame at RDH unless RDH == RDT; the ring becomes RxArrive's, only that buffer changes and no other register or table does |
| Monitor.CStr | lab6/jos-2019-spring/kern/monitor.c:366-368 | the C string at index j holds the characters up to, not including, the next NUL |
| Monitor.WordAt | lab6/jos-2019-spring/kern/monitor.c:357-359 | the maximal whitespace-free run starting at j, ending at whitespace or the end of the line |
| Monitor.Words | lab6/jos-2019-spring/kern/monitor.c:357-359 | one word per argument start |
| Monitor.Blanked | lab6/jos-2019-spring/kern/monitor.c:346-347 | zeroing separators keeps the buffer's length |
| Monitor.StartsSound | lab6/jos-2019-spring/kern/monitor.c:357-359 | every listed start is an argument start of the line |
| Monitor.StartsIncreasing | lab6/jos-2019-spring/kern/monitor.c:357-359 | the starts are listed left to right |
| Monitor.StartsComplete | lab6/jos-2019-spring/kern/monitor.c:357-359 | every argument start is listed |
| Monitor.LineOfCStr | lab6/jos-2019-spring/kern/monitor.c:333 | a buffer holding a NUL holds a C string ending at its first NUL |
| Monitor.ArgumentIsWord | lab6/jos-2019-spring/kern/monitor.c:357-359 | after zeroing, the C string at an argument start is the non-empty maximal word there |
| Monitor.ArgumentsAreWords | lab6/jos-2019-spring/kern/monitor.c:346-361 | the C strings argv points to after parsing are exactly Words of the line |
| Monitor.WordInBlanked | lab6/jos-2019-spring/kern/monitor.c:346-359 | in the zeroed buffer, the C string from j is the word from j |
| Monitor.NoStartsBetween | lab6/jos-2019-spring/kern/monitor.c:346-347 | a stretch without argument starts adds no starts |
| Monitor.BlanksToEnd | lab6/jos-2019-spring/kern/monitor.c:346-350 | separators up to the end of the line hold no more arguments |
| Monitor.BlanksThenWord | lab6/jos-2019-spring/kern/monitor.c:346-359 | separators and then a word give exactly one argument start, the word's first character |
| Monitor.BlanksThenStart | lab6/jos-2019-spring/kern/monitor.c:346-356 | separators and then a non-separator give an argument start there |
| Monitor.SkipBlanks | lab6/jos-2019-spring/kern/monitor.c:346-347 | zeroes the separators it passes, stopping at the NUL or at the first other character |
| Monitor.SkipWord | lab6/jos-2019-spring/kern/monitor.c:358-359 | moves past a non-empty run of non-separators to the next separator or the NUL |
| Monitor.Tokenize | lab6/jos-2019-spring/kern/monitor.c:341-361 | parses exactly when the line has fewer than 16 arguments; argv then holds the starts in order followed by a null, with every separator zeroed; otherwise it stops at the 16th argument |
| Monitor.Lookup | lab6/jos-2019-spring/kern/monitor.c:366-370 | the first commands[] entry with that name; None exactly when there is none |
| Monitor.RunCmd | lab6/jos-2019-spring/kern/monitor.c:333-373 | an empty line or 16 or more arguments returns 0 and runs nothing; otherwise the first matching command runs on Words of the line and its result is returned; an unknown name returns 0; the buffer ends with every separator before the NUL zeroed, or, on a 16th argument, every separator before it |
| Monitor.PermitEffects | lab6/jos-2019-spring/kern/monitor.c:133-148 | only 'u', 'r' and 'w' are accepted; 'u' sets PTE_U, 'w' sets PTE_W, 'r' clears PTE_W, and no other bit changes |
| Monitor.PermitIdempotent | lab6/jos-2019-spring/kern/monitor.c:133-148 | applying the same letter twice is the same as once |
| Monitor.FirstChar | lab6/jos-2019-spring/kern/monitor.c:133 | argv[2][0]: the first character, NUL for an empty string |
| Monitor.SetPermission | lab6/jos-2019-spring/kern/monitor.c:119-152 | returns 0 exactly when argc is 3, the entry exists and is present and the letter is accepted, and the entry is then Permit's; otherwise -1 with the entry unchanged |
| Monitor.RangeArgsOutcomes | lab6/jos-2019-spring/kern/monitor.c:64-89 | the arguments are accepted exactly when argc is 3, both parse as hex and start <= end |
| Monitor.Dump | lab6/jos-2019-spring/kern/monitor.c:154-198 | -1 and no output exactly when the arguments are rejected; otherwise 0 and the end - start bytes from the start address |
| Monitor.Step | lab6/jos-2019-spring/kern/monitor.c:105-112 | the walk moves by PGSIZE or PTSIZE |
| Monitor.WalkSteps | lab6/jos-2019-spring/kern/monitor.c:91-114 | the walk reports start first, stays below end, moves by PTSIZE after a PTE_PS entry and PGSIZE otherwise, and its last step reaches end |
| Monitor.WalkCovers | lab6/jos-2019-spring/kern/monitor.c:91-114 | every address of the range lies within the step of some reported address |
| Monitor.ShowMappings | lab6/jos-2019-spring/kern/monitor.c:62-117 | -1 and nothing shown exactly when the arguments are rejected; otherwise 0 and the addresses of Walk |

## Left out

- fork.c: `set_pgfault_handler`, `_pgfault_upcall` and the `thisenv` fix-up in the child are not modelled. The upcall's address is the parameter `entry`. The model starts from a parent whose handler is already installed: on a process's first fork, `set_pgfault_handler` (fork.c:132) also takes a frame for the parent's own exception stack, and panics without one; that allocation is not counted in Fork's and SFork's frame condition.
- fork.c: what the child does after `sys_exofork` returns 0 is not followed. `Side` picks which context a run follows, and the child side is modelled only as returning 0.
- fork.c: physical frame reference counts are not modelled, and neither is freeing a frame when `sys_page_map`/`sys_page_unmap` replace its last mapping. A page-table allocation failing with -E_NO_MEM inside `sys_page_map` is not modelled either.
- fork.c: only the entries below UTOP are modelled. The kernel half of the address space and the read-only `uvpt`/`uvpd` views are left out: the views are read as the current environment's own table.
- fork.c: the allocators are deterministic. The next frame is `nextFrame` and the next environment id is `nextEnvId`.
- fork.c: the value passed to `panic` is not modelled, only that the routine panics and leaves the state as at the failing call. At line 43 `r` receives the comparison's result; control flow is the same.
- ForkLib.Fork, ForkLib.SFork: the parent's own stack writes are reduced to one write to the normal stack page. It is taken after fork's loop, or after sfork's duppage of the stack page, and not at the instruction that makes it: the pages handled later touch neither that page nor PFTEMP. Both methods require a present writable stack page, as the running caller has. Writes to other pages (globals, the exception stack during the fault) and what the parent writes between duppage's two `sys_page_map` calls, while the child already maps the frame, are not modelled.
- kern/syscall.c is not part of this model: the `sys_*` methods follow the JOS system call documentation.
- E_AGAIN: this repository adds the code to inc/error.h, which is not part of this model; its value is taken to be 16.
- e1000.c: the PCI enable, MMIO mapping and `e1000_eeprom_read_register`'s busy wait on EERD are left out. The three EEPROM words are parameters of `Attach`/`RxInit`.
- e1000.c: the TCTL, TIPG and RCTL writes are not modelled, because kern/e1000.h (their bit values) is not part of this model. TDBAH/RDBAH are always 0 and are not fields.
- e1000.c: `page_alloc` failing is not modelled (the source would dereference NULL). `PADDR` is replaced by the parameters `txBufBase`, `rxBufBase`, `txDescPage` and `rxDescPage`.
- E1000.Driver.Tx: requires the caller's array to hold `len` bytes when `buf` is not NULL and `len` is at most MAX_TX_PKTSIZE. In C that is the caller's duty; a shorter buffer is over-read by `memmove`, which a Dafny array cannot express.
- E1000.Driver.Rx: requires the caller's array to hold the waiting packet (an array of MAX_RX_PKTSIZE bytes always does, by RxIgnoresLen). In C a smaller buffer is overrun by `memmove`, which a Dafny array cannot express.
- e1000.c: the legacy descriptor fields the driver never touches (checksum offset, special, errors, and the cmd bits other than RS/EOP) are not modelled. RAH's address-valid bit is not set by the source and is not modelled.
- monitor.c: `cprintf` output, `readline`, the `monitor` loop, `mon_help`, `mon_kerninfo`, `mon_backtrace`, `read_pretaddr`, `start_overflow` and `mon_time` are left out. They are console I/O, inline assembly or linker symbols.
- monitor.c: `strtol` is the parameter `hex`, a partial function that fails when characters are left over. `uintptr_t` wrap-around of a parsed address is not modelled.
- Monitor.WalkSteps: the walk is exact only without 32-bit wrap-around; `start_addr += PTSIZE` near the top of the address space is not modelled.
- Monitor.SetPermission: the entry is a parameter. The source hands the `argv[1]` string pointer itself to `pgdir_walk` (monitor.c:126), and that cast is not modelled.
- Monitor.Dump: the bytes are read from the parameter `mem`. The line breaks every eight bytes, and `KADDR`'s panic on a physical address beyond physical memory in `mon_dumppa`, are not modelled.
- monitor.c: the command bodies `runcmd` dispatches to are the parameter `run`. It receives the command's index in commands[] and the argument strings.
