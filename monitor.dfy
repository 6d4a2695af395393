/**
 * The JOS kernel monitor's command interpreter (kern/monitor.c): the
 * tokenizer and dispatcher of runcmd, mon_setpermission, and the argument
 * handling and page walk of mon_showmappings, mon_dumpva and mon_dumppa.
 *
 * A command line is a NUL-terminated array of characters; an argv entry is
 * an index into that array, and the string it denotes runs up to the next
 * NUL. Console output, strtol and the page-table walk are parameters.
 */
module Monitor {
  import opened Base
  import opened Mmu

  const MAXARGS: nat := 16
  const NUL: char := '\0'

  /** The names in commands[], in table order. */
  const COMMANDS: seq<string> :=
    ["help", "kerninfo", "backtrace", "time", "showmappings", "setpermission", "dumpva", "dumppa"]

  /** Membership in WHITESPACE, the four separators runcmd skips. */
  predicate IsWhitespace(c: char)
  {
    c == '\t' || c == '\r' || c == '\n' || c == ' '
  }

  /** `a` holds a C string of length `n`: its first NUL is at index `n`. */
  predicate Line(a: seq<char>, n: nat)
  {
    n < |a| && a[n] == NUL && forall k | 0 <= k < n :: a[k] != NUL
  }

  /** The C string that starts at index `j` of `b`: everything up to the next NUL. */
  function CStr(b: seq<char>, j: nat): (r: seq<char>)
    requires j <= |b|
    ensures j + |r| <= |b|
    ensures forall k | 0 <= k < |r| :: r[k] == b[j + k] && r[k] != NUL
    ensures j + |r| < |b| ==> b[j + |r|] == NUL
    decreases |b| - j
  {
    if j == |b| || b[j] == NUL then [] else [b[j]] + CStr(b, j + 1)
  }

  // ---------------------------------------------------------------------
  // Tokens of a line

  /** Index `j` of the line `s` begins an argument: it is not whitespace and follows whitespace or the line start. */
  predicate IsStart(s: seq<char>, j: nat)
    requires j < |s|
  {
    !IsWhitespace(s[j]) && (j == 0 || IsWhitespace(s[j - 1]))
  }

  /** The argument starts at or after index `i`, in increasing order. */
  function StartsFrom(s: seq<char>, i: nat): seq<nat>
    decreases |s| - i
  {
    if i >= |s| then []
    else if IsStart(s, i) then [i] + StartsFrom(s, i + 1)
    else StartsFrom(s, i + 1)
  }

  /** Where the arguments of the line `s` begin. */
  function TokenStarts(s: seq<char>): seq<nat>
  {
    StartsFrom(s, 0)
  }

  /** The maximal run of non-whitespace characters of `s` beginning at `j`. */
  function WordAt(s: seq<char>, j: nat): (w: seq<char>)
    requires j <= |s|
    ensures j + |w| <= |s|
    ensures forall k | 0 <= k < |w| :: w[k] == s[j + k] && !IsWhitespace(w[k])
    ensures j + |w| < |s| ==> IsWhitespace(s[j + |w|])
    decreases |s| - j
  {
    if j == |s| || IsWhitespace(s[j]) then [] else [s[j]] + WordAt(s, j + 1)
  }

  /** The arguments of the line `s`, as the strings the commands receive. */
  function Words(s: seq<char>): (ws: seq<seq<char>>)
    ensures |ws| == |TokenStarts(s)|
  {
    var ts := TokenStarts(s);
    StartsSound(s, 0);
    seq(|ts|, k requires 0 <= k < |ts| => WordAt(s, ts[k]))
  }

  /** The buffer after runcmd has zeroed every whitespace character before index `p`. */
  function Blanked(a: seq<char>, p: nat): (b: seq<char>)
    ensures |b| == |a|
  {
    seq(|a|, k requires 0 <= k < |a| => if k < p && IsWhitespace(a[k]) then NUL else a[k])
  }

  /** Only argument starts are listed. */
  lemma {:induction false} StartsSound(s: seq<char>, i: nat)
    ensures forall k | 0 <= k < |StartsFrom(s, i)| :: i <= StartsFrom(s, i)[k] < |s| && IsStart(s, StartsFrom(s, i)[k])
    decreases |s| - i
  {
    if i < |s| {
      StartsSound(s, i + 1);
    }
  }

  /** The argument starts are listed from left to right. */
  lemma {:induction false} StartsIncreasing(s: seq<char>, i: nat)
    ensures forall k, l | 0 <= k < l < |StartsFrom(s, i)| :: StartsFrom(s, i)[k] < StartsFrom(s, i)[l]
    decreases |s| - i
  {
    if i < |s| {
      StartsIncreasing(s, i + 1);
      StartsSound(s, i + 1);
    }
  }

  /** Every argument start of `s` at or after `i` is listed by StartsFrom. */
  lemma {:induction false} StartsComplete(s: seq<char>, i: nat, j: nat)
    requires i <= j < |s| && IsStart(s, j)
    ensures j in StartsFrom(s, i)
    decreases j - i
  {
    if i < j {
      StartsComplete(s, i + 1, j);
    }
  }

  /** A buffer holding a NUL holds the C string CStr(a, 0). */
  lemma LineOfCStr(a: seq<char>)
    requires NUL in a
    ensures Line(a, |CStr(a, 0)|) && CStr(a, 0) == a[..|CStr(a, 0)|]
  {
    var s := CStr(a, 0);
    var k :| 0 <= k < |a| && a[k] == NUL;
    assert forall j | 0 <= j < |s| :: s[j] == a[j] && s[j] != NUL;
    assert |s| <= k < |a|;
    assert s == a[..|s|];
  }

  /**
   * Each argument is a maximal run of non-whitespace characters, and once
   * runcmd has zeroed the separators the C string at its start is exactly
   * that run.
   */
  lemma ArgumentIsWord(a: seq<char>, n: nat, j: nat)
    requires Line(a, n)
    requires j < n && IsStart(a[..n], j)
    ensures |WordAt(a[..n], j)| > 0
    ensures CStr(Blanked(a, n), j) == WordAt(a[..n], j)
  {
    WordInBlanked(a, n, j);
  }

  /** The C strings argv points at after the zeroing are the arguments of the line. */
  lemma ArgumentsAreWords(a: seq<char>, n: nat)
    requires Line(a, n)
    ensures var ts := TokenStarts(a[..n]);
            forall k | 0 <= k < |ts| :: ts[k] < n && CStr(Blanked(a, n), ts[k]) == Words(a[..n])[k]
  {
    var s := a[..n];
    var ts := TokenStarts(s);
    StartsSound(s, 0);
    forall k | 0 <= k < |ts|
      ensures ts[k] < n && CStr(Blanked(a, n), ts[k]) == Words(s)[k]
    {
      ArgumentIsWord(a, n, ts[k]);
    }
  }

  lemma {:induction false} WordInBlanked(a: seq<char>, n: nat, j: nat)
    requires Line(a, n) && j <= n
    ensures CStr(Blanked(a, n), j) == WordAt(a[..n], j)
    decreases n - j
  {
    var b := Blanked(a, n);
    if j == n {
      assert b[j] == NUL;
    } else if IsWhitespace(a[j]) {
      assert b[j] == NUL;
    } else {
      assert b[j] == a[j] != NUL;
      WordInBlanked(a, n, j + 1);
    }
  }

  // ---------------------------------------------------------------------
  // runcmd

  /** A stretch of the line where no argument starts adds no argument starts. */
  lemma {:induction false} NoStartsBetween(s: seq<char>, p: nat, q: nat)
    requires p <= q <= |s|
    requires forall k | p <= k < q :: !IsStart(s, k)
    ensures StartsFrom(s, p) == StartsFrom(s, q)
    decreases q - p
  {
    if p < q {
      NoStartsBetween(s, p + 1, q);
    }
  }

  /** Separators from `p0` to the end of the line: no argument starts there. */
  lemma BlanksToEnd(s: seq<char>, p0: nat)
    requires p0 <= |s|
    requires forall k | p0 <= k < |s| :: IsWhitespace(s[k])
    ensures StartsFrom(s, p0) == []
  {
    NoStartsBetween(s, p0, |s|);
  }

  /**
   * Separators from `p0` up to `p`, where an argument starts (`p0` being the
   * line start or a separator), then the argument up to `q`: the starts at
   * or after `p0` are `p` followed by those at or after `q`.
   */
  lemma BlanksThenWord(s: seq<char>, p0: nat, p: nat, q: nat)
    requires p0 <= p < q <= |s|
    requires p0 == 0 || p0 == |s| || IsWhitespace(s[p0])
    requires forall k | p0 <= k < p :: IsWhitespace(s[k])
    requires forall k | p <= k < q :: !IsWhitespace(s[k])
    ensures IsStart(s, p)
    ensures StartsFrom(s, p0) == [p] + StartsFrom(s, q)
  {
    NoStartsBetween(s, p0, p);
    NoStartsBetween(s, p + 1, q);
  }

  /** As BlanksThenWord, up to the first character of the argument. */
  lemma BlanksThenStart(s: seq<char>, p0: nat, p: nat)
    requires p0 <= p < |s|
    requires p0 == 0 || p0 == |s| || IsWhitespace(s[p0])
    requires forall k | p0 <= k < p :: IsWhitespace(s[k])
    requires !IsWhitespace(s[p])
    ensures StartsFrom(s, p0) == [p] + StartsFrom(s, p + 1)
  {
    NoStartsBetween(s, p0, p);
  }

  /**
   * The whitespace loop of runcmd, from index `p` of the line `s` (ended by
   * the NUL at a[|s|]): it zeroes the separators it passes and stops at the
   * NUL or at the first other character.
   */
  method SkipBlanks(buf: array<char>, p: nat, ghost a: seq<char>, ghost s: seq<char>) returns (q: nat)
    requires Line(a, |s|) && s == a[..|s|] && p <= |s|
    requires buf[..] == Blanked(a, p)
    modifies buf
    ensures p <= q <= |s|
    ensures forall k | p <= k < q :: IsWhitespace(s[k])
    ensures q < |s| <==> buf[q] != NUL
    ensures q < |s| ==> !IsWhitespace(s[q])
    ensures buf[..] == Blanked(a, q)
  {
    q := p;
    while buf[q] != NUL && IsWhitespace(buf[q])
      invariant p <= q <= |s|
      invariant forall k | p <= k < q :: IsWhitespace(s[k])
      invariant buf[..] == Blanked(a, q)
      decreases |s| - q
    {
      buf[q] := NUL;
      q := q + 1;
      assert buf[..] == Blanked(a, q);
    }
  }

  /**
   * The argument-scanning loop of runcmd, from the start `p` of an
   * argument of the line `s`: it stops at the first separator or at the
   * NUL that ends the line.
   */
  method SkipWord(buf: array<char>, p: nat, ghost a: seq<char>, ghost s: seq<char>) returns (q: nat)
    requires Line(a, |s|) && s == a[..|s|] && p < |s|
    requires buf[..] == Blanked(a, p) && !IsWhitespace(s[p])
    ensures p < q <= |s|
    ensures forall k | p <= k < q :: !IsWhitespace(s[k])
    ensures q < |s| ==> IsWhitespace(s[q])
  {
    q := p;
    while buf[q] != NUL && !IsWhitespace(buf[q])
      invariant p <= q <= |s|
      invariant forall k | p <= k < q :: !IsWhitespace(s[k])
      decreases |s| - q
    {
      q := q + 1;
    }
  }

  /** What runcmd's parsing loop ends with: argc and argv[0..argc], or too many arguments. */
  datatype Parse = Parsed(argc: nat, argv: seq<Option<nat>>) | TooManyArgs

  /**
   * The parsing loop of runcmd. On a line of at most MAXARGS - 1
   * arguments it zeroes every separator before the terminating NUL, stores
   * the argument starts in argv in order and puts a null after them; on a
   * longer line it stops at the start of argument number MAXARGS, having
   * zeroed the separators before it.
   */
  method Tokenize(buf: array<char>, ghost n: nat) returns (res: Parse)
    requires Line(buf[..], n)
    modifies buf
    ensures var s := old(buf[..])[..n];
            && (res.Parsed? <==> |TokenStarts(s)| < MAXARGS)
            && (res.Parsed? ==>
                  && res.argc == |TokenStarts(s)|
                  && |res.argv| == res.argc + 1
                  && (forall k | 0 <= k < res.argc :: res.argv[k] == Some(TokenStarts(s)[k]))
                  && res.argv[res.argc] == None
                  && buf[..] == Blanked(old(buf[..]), n))
            && (res.TooManyArgs? ==> buf[..] == Blanked(old(buf[..]), TokenStarts(s)[MAXARGS - 1]))
  {
    ghost var a := buf[..];
    ghost var s := a[..n];
    var argv := new Option<nat>[MAXARGS](_ => None);
    assert argv as object != buf;
    var argc := 0;
    argv[argc] := None;
    ghost var found: seq<nat> := [];
    var p := 0;
    while true
      invariant 0 <= p <= n && argc < MAXARGS && |found| == argc
      invariant p == 0 || p == n || IsWhitespace(s[p])
      invariant TokenStarts(s) == found + StartsFrom(s, p)
      invariant forall k | 0 <= k < argc :: argv[k] == Some(found[k])
      invariant buf[..] == Blanked(a, p)
      decreases n - p
    {
      ghost var p0 := p;
      p := SkipBlanks(buf, p, a, s);
      if buf[p] == NUL {
        BlanksToEnd(s, p0);
        break;
      }
      if argc == MAXARGS - 1 {
        BlanksThenStart(s, p0, p);
        assert TokenStarts(s)[MAXARGS - 1] == p;
        return TooManyArgs;
      }
      argv[argc] := Some(p);
      argc := argc + 1;
      ghost var start := p;
      p := SkipWord(buf, p, a, s);
      BlanksThenWord(s, p0, start, p);
      ghost var rest := StartsFrom(s, p);
      assert found + ([start] + rest) == (found + [start]) + rest;
      found := found + [start];
    }
    argv[argc] := None;
    assert found == TokenStarts(s);
    var entries := argv[..argc + 1];
    assert forall k | 0 <= k < argc :: entries[k] == Some(found[k]);
    res := Parsed(argc, entries);
  }

  /**
   * The dispatch loop of runcmd: the first entry of commands[] whose name
   * is `name`, if any.
   */
  method Lookup(name: seq<char>) returns (idx: Option<nat>)
    ensures idx.Some? ==> idx.value < |COMMANDS| && COMMANDS[idx.value] == name
    ensures idx.Some? ==> forall i | 0 <= i < idx.value :: COMMANDS[i] != name
    ensures idx.None? <==> name !in COMMANDS
  {
    for i := 0 to |COMMANDS|
      invariant forall k | 0 <= k < i :: COMMANDS[k] != name
    {
      if name == COMMANDS[i] {
        return Some(i);
      }
    }
    return None;
  }

  /**
   * runcmd: parse the line in `buf` and run the command it names. Running
   * command `i` of commands[] with arguments `args` returns `run(i, args)`;
   * `invoked` says which command ran, if any.
   */
  method RunCmd(buf: array<char>, run: (nat, seq<seq<char>>) -> int) returns (r: int, invoked: Option<nat>)
    requires NUL in buf[..]
    modifies buf
    ensures var s := CStr(old(buf[..]), 0);
            var words := Words(s);
            && (|words| == 0 || |words| >= MAXARGS ==> r == 0 && invoked == None)
            && (0 < |words| < MAXARGS ==>
                  && (invoked.None? <==> words[0] !in COMMANDS)
                  && (invoked.Some? ==>
                        && invoked.value < |COMMANDS|
                        && COMMANDS[invoked.value] == words[0]
                        && (forall i | 0 <= i < invoked.value :: COMMANDS[i] != words[0])
                        && r == run(invoked.value, words))
                  && (invoked.None? ==> r == 0))
    ensures var s := CStr(old(buf[..]), 0);
            buf[..] == if |TokenStarts(s)| < MAXARGS then Blanked(old(buf[..]), |s|)
                       else Blanked(old(buf[..]), TokenStarts(s)[MAXARGS - 1])
  {
    ghost var a := buf[..];
    LineOfCStr(a);
    ghost var n := |CStr(a, 0)|;
    ghost var s := a[..n];
    var res := Tokenize(buf, n);
    if res.TooManyArgs? || res.argc == 0 {
      return 0, None;
    }
    var line := buf[..];
    var argc, argv := res.argc, res.argv;
    ArgumentsAreWords(a, n);
    var args := seq(argc, k requires 0 <= k < argc && k < |argv| && argv[k].Some? && argv[k].value <= |line| => CStr(line, argv[k].value));
    assert args == Words(s);
    invoked := Lookup(args[0]);
    if invoked.None? {
      return 0, None;
    }
    r := run(invoked.value, args);
  }

  // ---------------------------------------------------------------------
  // mon_setpermission

  /** A page table entry that a command updates in place. */
  class PteSlot {
    var bits: bv32
    constructor (b: bv32)
      ensures bits == b
    {
      bits := b;
    }
  }

  /** The switch of mon_setpermission: the new entry for letter `c`, None for a letter it rejects. */
  function Permit(bits: bv32, c: char): (r: Option<bv32>)
  {
    if c == 'u' then Some(bits | PTE_U)
    else if c == 'r' then Some(bits & !PTE_W)
    else if c == 'w' then Some(bits | PTE_W)
    else None
  }

  /**
   * The letters do what their names say and touch no other bit: 'u' grants
   * user access, 'w' grants write access, 'r' revokes write access.
   */
  lemma PermitEffects(bits: bv32, c: char)
    ensures Permit(bits, c).Some? <==> c == 'u' || c == 'r' || c == 'w'
    ensures Permit(bits, c).Some? ==> (Permit(bits, c).value ^ bits) & !(PTE_U | PTE_W) == 0
    ensures c == 'u' ==> Permit(bits, c).value & PTE_U != 0
    ensures c == 'u' ==> Permit(bits, c).value & PTE_W == bits & PTE_W
    ensures c == 'w' ==> Permit(bits, c).value & PTE_W != 0
    ensures c == 'w' ==> Permit(bits, c).value & PTE_U == bits & PTE_U
    ensures c == 'r' ==> Permit(bits, c).value & PTE_W == 0
    ensures c == 'r' ==> Permit(bits, c).value & PTE_U == bits & PTE_U
  {
    if c == 'u' {
    } else if c == 'r' {
    } else if c == 'w' {
    } else {
      assert Permit(bits, c) == None;
    }
  }

  /** Setting a permission twice is the same as setting it once. */
  lemma PermitIdempotent(bits: bv32)
    ensures Permit(Permit(bits, 'u').value, 'u') == Permit(bits, 'u')
    ensures Permit(Permit(bits, 'r').value, 'r') == Permit(bits, 'r')
    ensures Permit(Permit(bits, 'w').value, 'w') == Permit(bits, 'w')
  {
  }

  /** The first character of the C string `w`: NUL for the empty string. */
  function FirstChar(w: seq<char>): (c: char)
    ensures |w| > 0 ==> c == w[0]
  {
    if |w| > 0 then w[0] else NUL
  }

  /**
   * mon_setpermission, given the entry `pte` that the page-table walk
   * found for argv[1] (null when there is none).
   */
  method SetPermission(argv: seq<seq<char>>, pte: PteSlot?) returns (r: int)
    modifies pte
    ensures r == 0 <==>
              |argv| == 3 && pte != null && old(pte.bits) & PTE_P != 0 && Permit(old(pte.bits), FirstChar(argv[2])).Some?
    ensures r != 0 ==> r == -1
    ensures r == 0 ==> pte.bits == Permit(old(pte.bits), FirstChar(argv[2])).value
    ensures r != 0 && pte != null ==> pte.bits == old(pte.bits)
  {
    if |argv| != 3 {
      return -1;
    }
    if pte == null || pte.bits & PTE_P == 0 {
      return -1;
    }
    var permission := FirstChar(argv[2]);
    match permission {
      case 'u' => pte.bits := pte.bits | PTE_U;
      case 'r' => pte.bits := pte.bits & !PTE_W;
      case 'w' => pte.bits := pte.bits | PTE_W;
      case _ => return -1;
    }
    return 0;
  }

  // ---------------------------------------------------------------------
  // mon_showmappings, mon_dumpva, mon_dumppa

  /**
   * The argument checks the three range commands share: exactly two
   * arguments, both accepted by the hex parser `hex` (strtol with nothing
   * left over), the first not above the second.
   */
  function RangeArgs(argv: seq<seq<char>>, hex: seq<char> -> Option<nat>): (r: Option<(nat, nat)>)
  {
    if |argv| != 3 then None
    else if hex(argv[1]).None? then None
    else if hex(argv[2]).None? then None
    else if hex(argv[1]).value > hex(argv[2]).value then None
    else Some((hex(argv[1]).value, hex(argv[2]).value))
  }

  lemma RangeArgsOutcomes(argv: seq<seq<char>>, hex: seq<char> -> Option<nat>)
    ensures RangeArgs(argv, hex).Some? <==>
              |argv| == 3 && hex(argv[1]).Some? && hex(argv[2]).Some? && hex(argv[1]).value <= hex(argv[2]).value
    ensures RangeArgs(argv, hex).Some? ==>
              RangeArgs(argv, hex).value == (hex(argv[1]).value, hex(argv[2]).value)
  {
  }

  /**
   * mon_dumpva and mon_dumppa: the result and the bytes printed, where
   * `mem` is the memory the command reads (virtual for dumpva, physical
   * for dumppa).
   */
  method Dump(argv: seq<seq<char>>, hex: seq<char> -> Option<nat>, mem: nat -> bv8) returns (r: int, out: seq<bv8>)
    ensures RangeArgs(argv, hex).None? <==> r == -1
    ensures RangeArgs(argv, hex).None? ==> out == []
    ensures RangeArgs(argv, hex).Some? ==>
              var (lo, hi) := RangeArgs(argv, hex).value;
              && r == 0 && |out| == hi - lo
              && forall i | 0 <= i < |out| :: out[i] == mem(lo + i)
  {
    if |argv| != 3 {
      return -1, [];
    }
    var start := hex(argv[1]);
    if start.None? {
      return -1, [];
    }
    var end := hex(argv[2]);
    if end.None? {
      return -1, [];
    }
    if start.value > end.value {
      return -1, [];
    }
    var length := end.value - start.value;
    out := [];
    for i := 0 to length
      invariant |out| == i
      invariant forall k | 0 <= k < i :: out[k] == mem(start.value + k)
    {
      out := out + [mem(start.value + i)];
    }
    r := 0;
  }

  /** How far the showmappings walk moves past an address whose entry is `pte` (None: no page table). */
  function Step(pte: Option<bv32>): (n: nat)
    ensures n == PGSIZE || n == PTSIZE
  {
    if pte.Some? && pte.value & PTE_PS != 0 then PTSIZE else PGSIZE
  }

  /** The addresses the showmappings walk reports, from `lo` up to `hi`, with `walk` as pgdir_walk. */
  function Walk(lo: nat, hi: nat, walk: nat -> Option<bv32>): (vs: seq<nat>)
    decreases hi - lo
  {
    if lo >= hi then [] else [lo] + Walk(lo + Step(walk(lo)), hi, walk)
  }

  /**
   * The walk reports `lo` first, stays below `hi`, and moves from each
   * address by the step its entry asks for.
   */
  lemma {:induction false} WalkSteps(lo: nat, hi: nat, walk: nat -> Option<bv32>)
    ensures var vs := Walk(lo, hi, walk);
            && (lo < hi <==> |vs| > 0)
            && (|vs| > 0 ==> vs[0] == lo)
            && (forall k | 0 <= k < |vs| :: lo <= vs[k] < hi)
            && (forall k | 0 <= k < |vs| - 1 :: vs[k + 1] == vs[k] + Step(walk(vs[k])))
            && (|vs| > 0 ==> vs[|vs| - 1] + Step(walk(vs[|vs| - 1])) >= hi)
    decreases hi - lo
  {
    if lo < hi {
      WalkSteps(lo + Step(walk(lo)), hi, walk);
    }
  }

  /**
   * No address of the range is skipped: the `k`-th reported address has
   * `x` within its step.
   */
  lemma {:induction false} WalkCovers(lo: nat, hi: nat, walk: nat -> Option<bv32>, x: nat) returns (k: nat)
    requires lo <= x < hi
    ensures var vs := Walk(lo, hi, walk); k < |vs| && vs[k] <= x < vs[k] + Step(walk(vs[k]))
    decreases hi - lo
  {
    var next := lo + Step(walk(lo));
    if x >= next {
      var k' := WalkCovers(next, hi, walk, x);
      assert Walk(lo, hi, walk) == [lo] + Walk(next, hi, walk);
      k := k' + 1;
    } else {
      k := 0;
    }
  }

  /**
   * mon_showmappings: -1 when the arguments are rejected, otherwise 0 and
   * the addresses it prints a line for.
   */
  method ShowMappings(argv: seq<seq<char>>, hex: seq<char> -> Option<nat>, walk: nat -> Option<bv32>)
    returns (r: int, shown: seq<nat>)
    ensures RangeArgs(argv, hex).None? ==> r == -1 && shown == []
    ensures RangeArgs(argv, hex).Some? ==>
              r == 0 && shown == Walk(RangeArgs(argv, hex).value.0, RangeArgs(argv, hex).value.1, walk)
  {
    if |argv| != 3 {
      return -1, [];
    }
    var start := hex(argv[1]);
    if start.None? {
      return -1, [];
    }
    var end := hex(argv[2]);
    if end.None? {
      return -1, [];
    }
    if start.value > end.value {
      return -1, [];
    }
    var addr := start.value;
    shown := [];
    while addr < end.value
      invariant shown + Walk(addr, end.value, walk) == Walk(start.value, end.value, walk)
      decreases end.value - addr
    {
      var pte := walk(addr);
      ghost var rest := Walk(addr + Step(pte), end.value, walk);
      assert shown + ([addr] + rest) == (shown + [addr]) + rest;
      shown := shown + [addr];
      if pte.None? {
        addr := addr + PGSIZE;
        continue;
      }
      if pte.value & PTE_PS != 0 {
        addr := addr + PTSIZE;
      } else {
        addr := addr + PGSIZE;
      }
    }
    r := 0;
  }
}
