/** crt/coralnpu_main.c: the firmware that serves the dispatch request it finds in memory.  The
    request stays in the memory the kernels write to, and the workgroup loop reads its bounds from
    there. */
module Firmware {
  import opened Options
  import opened SimMemory
  import opened DispatchMemory
  import opened DispatchRequest

  // ----- kernels -----

  /** What the kernel is handed once for all workgroups. */
  datatype Dispatch = Dispatch(size: Grid, count: Grid, maxConcurrency: nat, constantCount: nat, bindingCount: nat,
                               constants: Option<u32>, ptrs: Option<u32>, lengths: Option<u32>)

  /** What it is handed for one workgroup; `localAddr` 0 stands for a null pointer. */
  datatype Workgroup = Workgroup(id: Grid, localAddr: u32)

  datatype KernelResult = KernelResult(code: i32, mem: Memory)

  type Kernel = (Dispatch, Workgroup, Memory) -> KernelResult

  /** `exports` is missing when the pointer table is null, an entry when that pointer is null. */
  datatype Library = NoLibrary | Library(exports: Option<seq<Option<Kernel>>>)

  function DispatchOf(r: Request): Dispatch {
    Dispatch(r.size, r.count, r.maxConcurrency, r.constantCount, r.bindingCount,
             if r.constantCount == 0 then None else Some(r.constantsAddr),
             if r.bindingCount == 0 then None else Some(r.ptrsAddr),
             if r.bindingCount == 0 then None else Some(r.lengthsAddr))
  }

  // ----- the grid -----

  function Total(c: Grid): nat {
    c.x * c.y * c.z
  }

  /** Position of a workgroup in z, then y, then x order. */
  function IndexOf(c: Grid, x: nat, y: nat, z: nat): nat {
    (z * c.y + y) * c.x + x
  }

  predicate InGrid(c: Grid, g: Grid) {
    g.x < c.x && g.y < c.y && g.z < c.z
  }

  /** The calls of a run, with their return codes. */
  type Log = seq<(Workgroup, i32)>

  /** The log holds exactly the workgroups before position `n`, each at its own position. */
  ghost predicate Ordered(c: Grid, log: Log, n: nat) {
    |log| == n && forall i :: 0 <= i < |log| ==> PlacedAt(c, log[i].0.id, i)
  }

  predicate PlacedAt(c: Grid, g: Grid, i: nat) {
    InGrid(c, g) && IndexOf(c, g.x, g.y, g.z) == i
  }

  ghost predicate AllZero(log: Log) {
    forall i :: 0 <= i < |log| ==> log[i].1 == 0
  }

  lemma MulLess(a: nat, b: nat, n: nat)
    requires a < b
    ensures a * n + n <= b * n
  {
    assert b * n == a * n + (b - a) * n;
    assert (b - a) * n == (b - a - 1) * n + n;
  }

  lemma IndexBelow(c: Grid, g: Grid)
    requires InGrid(c, g)
    ensures IndexOf(c, g.x, g.y, g.z) < Total(c)
  {
    MulLess(g.z, c.z, c.y);
    MulLess(g.z * c.y + g.y, c.z * c.y, c.x);
    assert c.z * c.y * c.x == Total(c);
  }

  lemma SplitUnique(a: nat, r: nat, b: nat, s: nat, n: nat)
    requires r < n && s < n && a * n + r == b * n + s
    ensures a == b && r == s
  {
    if a < b { MulLess(a, b, n); }
    if b < a { MulLess(b, a, n); }
  }

  /** Different workgroups have different positions. */
  lemma IndexInjective(c: Grid, g: Grid, h: Grid)
    requires InGrid(c, g) && InGrid(c, h) && IndexOf(c, g.x, g.y, g.z) == IndexOf(c, h.x, h.y, h.z)
    ensures g == h
  {
    PlaceInjective(c.x, c.y, g.x, g.y, g.z, h.x, h.y, h.z);
  }

  lemma PlaceInjective(cx: nat, cy: nat, x: nat, y: nat, z: nat, x': nat, y': nat, z': nat)
    requires x < cx && x' < cx && y < cy && y' < cy && (z * cy + y) * cx + x == (z' * cy + y') * cx + x'
    ensures x == x' && y == y' && z == z'
  {
    SplitUnique(z * cy + y, x, z' * cy + y', x', cx);
    SplitUnique(z, y, z', y', cy);
  }

  ghost predicate CalledOnce(log: Log, g: Grid) {
    exists i :: 0 <= i < |log| && log[i].0.id == g && forall j :: 0 <= j < |log| && log[j].0.id == g ==> j == i
  }

  /** A complete ordered log calls every workgroup of the grid exactly once. */
  lemma OrderedIsOnce(c: Grid, log: Log, g: Grid)
    requires Ordered(c, log, Total(c)) && InGrid(c, g)
    ensures CalledOnce(log, g)
  {
    IndexBelow(c, g);
    var i := IndexOf(c, g.x, g.y, g.z);
    assert PlacedAt(c, log[i].0.id, i);
    IndexInjective(c, g, log[i].0.id);
    forall j | 0 <= j < |log| && log[j].0.id == g ensures j == i {
      assert PlacedAt(c, log[j].0.id, j);
    }
  }

  // ----- what a run does -----

  /** The kernel, its arguments, where the request is, and the memory before the first call. */
  datatype Job = Job(kernel: Kernel, d: Dispatch, addr: nat, start: Memory)

  predicate JobOk(j: Job) {
    j.addr + REQUEST_SIZE <= SPACE
  }

  /** Memory after the first `n` calls of a log, each kernel call working on what the one before
      left. */
  ghost function MemoryAfter(j: Job, log: Log, n: nat): Memory
    requires n <= |log|
  {
    if n == 0 then j.start else j.kernel(j.d, log[n - 1].0, MemoryAfter(j, log, n - 1)).mem
  }

  /** Call `i` used the local memory address then in the request, and its code is the kernel's. */
  ghost predicate FaithfulAt(j: Job, log: Log, i: nat)
    requires JobOk(j) && i < |log|
  {
    var m := MemoryAfter(j, log, i);
    log[i].0.localAddr == RequestAt(m, j.addr).localAddr && log[i].1 == j.kernel(j.d, log[i].0, m).code
  }

  ghost predicate Faithful(j: Job, log: Log)
    requires JobOk(j)
  {
    forall i :: 0 <= i < |log| ==> FaithfulAt(j, log, i)
  }

  /** The workgroup that is called from position (`x`, `y`, `z`) on in a grid of size `c`: the next
      in its row, or the first of the next row, or the first of the next plane. */
  function From(x: nat, y: u32, z: u32, c: Grid): Option<Grid> {
    if x < c.x then Some(Grid(x, y, z))
    else if c.x > 0 && y + 1 < c.y then Some(Grid(0, y + 1, z))
    else if c.x > 0 && c.y > 0 && z + 1 < c.z then Some(Grid(0, 0, z + 1))
    else None
  }

  /** The same from row `y` on, and from plane `z` on. */
  function Later(y: nat, z: u32, c: Grid): Option<Grid> {
    if c.x > 0 && y < c.y then Some(Grid(0, y, z)) else Last(z + 1, c)
  }

  function Last(z: nat, c: Grid): Option<Grid> {
    if c.x > 0 && c.y > 0 && z < c.z then Some(Grid(0, 0, z)) else None
  }

  /** The workgroup to call after the one called `before`, by the workgroup counts that then stand in
      the request; `None` at the end. */
  function DueIn(before: Option<Grid>, m: Memory, addr: nat): Option<Grid>
    requires addr + REQUEST_SIZE <= SPACE
  {
    var c := RequestAt(m, addr).count;
    match before
    case None => Last(0, c)
    case Some(g) => From(g.x + 1, g.y, g.z, c)
  }

  /** The same after the first `n` calls of a log. */
  ghost function Due(j: Job, log: Log, n: nat): Option<Grid>
    requires JobOk(j) && n <= |log|
  {
    DueIn(if n == 0 then None else Some(log[n - 1].0.id), MemoryAfter(j, log, n), j.addr)
  }

  ghost predicate InTurnAt(j: Job, log: Log, i: nat)
    requires JobOk(j) && i < |log|
  {
    Due(j, log, i) == Some(log[i].0.id)
  }

  /** Every call was the one due. */
  ghost predicate InTurn(j: Job, log: Log)
    requires JobOk(j)
  {
    forall i :: 0 <= i < |log| ==> InTurnAt(j, log, i)
  }

  /** The kernel never changes the bytes of the request. */
  ghost predicate KeepsRequest(kernel: Kernel, d: Dispatch, addr: nat)
    requires addr + REQUEST_SIZE <= SPACE
  {
    forall w, m :: SameRequest(kernel(d, w, m).mem, m, addr)
  }

  predicate SameRequest(m: Memory, m': Memory, addr: nat)
    requires addr + REQUEST_SIZE <= SPACE
  {
    m[addr..addr + REQUEST_SIZE] == m'[addr..addr + REQUEST_SIZE]
  }

  lemma {:induction false} SameBytesSameRequest(m: Memory, m': Memory, addr: nat)
    requires addr + REQUEST_SIZE <= SPACE && SameRequest(m, m', addr)
    ensures RequestAt(m, addr) == RequestAt(m', addr)
  {
    SameWords(m, m', addr, REQUEST_WORDS);
  }

  lemma {:induction false} SameWords(m: Memory, m': Memory, addr: nat, n: nat)
    requires addr + 4 * n <= addr + REQUEST_SIZE <= SPACE && SameRequest(m, m', addr)
    ensures WordsAt(m, addr, n) == WordsAt(m', addr, n)
  {
    if n > 0 {
      SameWords(m, m', addr, n - 1);
      var b, b', k := m[addr..addr + REQUEST_SIZE], m'[addr..addr + REQUEST_SIZE], 4 * (n - 1);
      assert b[k] == b'[k] && b[k + 1] == b'[k + 1] && b[k + 2] == b'[k + 2] && b[k + 3] == b'[k + 3];
      WordSame(m, m', addr + k);
    }
  }

  lemma {:induction false} MemoryPrefix(j: Job, log: Log, more: Log, n: nat)
    requires n <= |log|
    ensures MemoryAfter(j, log + more, n) == MemoryAfter(j, log, n)
  {
    if n > 0 { MemoryPrefix(j, log, more, n - 1); }
  }

  lemma {:induction false} InTurnAppend(j: Job, log: Log, w: Workgroup, code: i32)
    requires JobOk(j) && InTurn(j, log) && Due(j, log, |log|) == Some(w.id)
    ensures InTurn(j, log + [(w, code)])
  {
    var log' := log + [(w, code)];
    forall i | 0 <= i < |log'| ensures InTurnAt(j, log', i) {
      MemoryPrefix(j, log, [(w, code)], i);
      if i < |log| { assert InTurnAt(j, log, i); }
    }
  }

  lemma {:induction false} FaithfulAppend(j: Job, log: Log, w: Workgroup, r: KernelResult)
    requires JobOk(j) && Faithful(j, log) && w.localAddr == RequestAt(MemoryAfter(j, log, |log|), j.addr).localAddr
    requires r == j.kernel(j.d, w, MemoryAfter(j, log, |log|))
    ensures var log' := log + [(w, r.code)];
            Faithful(j, log') && MemoryAfter(j, log', |log'|) == r.mem
  {
    var log' := log + [(w, r.code)];
    MemoryPrefix(j, log, [(w, r.code)], |log|);
    forall i | 0 <= i < |log'| ensures FaithfulAt(j, log', i) {
      MemoryPrefix(j, log, [(w, r.code)], i);
      if i < |log| { assert FaithfulAt(j, log, i); }
    }
  }

  /** The workgroup due after `g` in a grid stands right behind it; after the last none is due. */
  lemma {:induction false} NextPlace(c: Grid, g: Grid)
    requires InGrid(c, g)
    ensures match From(g.x + 1, g.y, g.z, c)
            case Some(h) => PlacedAt(c, h, IndexOf(c, g.x, g.y, g.z) + 1)
            case None => IndexOf(c, g.x, g.y, g.z) + 1 == Total(c)
  {
    if g.x + 1 < c.x {
      IndexStep(c, g.x, g.y, g.z);
      IndexStep(c, g.x + 1, g.y, g.z);
    } else {
      IndexStep(c, g.x, g.y, g.z);
      RowEnds(c, g.y, g.z);
      if g.y + 1 == c.y { PlaneEnds(c, g.z); }
      if g.y + 1 == c.y && g.z + 1 == c.z { GridEnds(c); }
    }
  }

  ghost predicate SteadyCount(j: Job, log: Log, c: Grid)
    requires JobOk(j)
  {
    forall i: nat :: i <= |log| ==> CountIs(j, log, i, c)
  }

  ghost predicate CountIs(j: Job, log: Log, i: nat, c: Grid)
    requires JobOk(j) && i <= |log|
  {
    RequestAt(MemoryAfter(j, log, i), j.addr).count == c
  }

  /** While the kernel leaves the workgroup counts alone, the calls in turn are the grid in order, and
      none is due exactly when all have been made. */
  lemma {:induction false} SteadyOrder(j: Job, log: Log, c: Grid, n: nat)
    requires JobOk(j) && InTurn(j, log) && SteadyCount(j, log, c) && n <= |log|
    ensures forall i :: 0 <= i < n ==> PlacedAt(c, log[i].0.id, i)
    ensures Due(j, log, n) == None ==> n == Total(c)
    ensures Due(j, log, n).Some? ==> PlacedAt(c, Due(j, log, n).value, n)
  {
    assert CountIs(j, log, n, c);
    if n > 0 {
      SteadyOrder(j, log, c, n - 1);
      assert InTurnAt(j, log, n - 1);
      NextPlace(c, log[n - 1].0.id);
    } else {
      EmptyGrid(c);
    }
  }

  // ----- main -----

  /** The checks before the request is taken: -1 and -2. */
  predicate Accepts(r: Request) {
    && r.magic == MAGIC && r.version == VERSION && r.status == STATUS_READY
    && !(r.constantCount != 0 && r.constantsAddr == 0)
    && !(r.bindingCount != 0 && (r.ptrsAddr == 0 || r.lengthsAddr == 0))
  }

  predicate HasExport(lib: Library, ordinal: nat) {
    lib.Library? && lib.exports.Some? && ordinal < |lib.exports.value| && lib.exports.value[ordinal].Some?
  }

  function KernelOf(lib: Library, ordinal: nat): Kernel
    requires HasExport(lib, ordinal)
  {
    lib.exports.value[ordinal].value
  }

  /** Why no workgroup is called: the code of the first failing check, 0 if there is none. */
  function Refusal(r: Request, lib: Library): i32 {
    if r.magic != MAGIC || r.version != VERSION || r.status != STATUS_READY then -1
    else if !Accepts(r) then -2
    else if lib.NoLibrary? then -3
    else if !HasExport(lib, r.ordinal) then -4
    else 0
  }

  /** `return_code`, then `status`. */
  function Answered(mem: Memory, addr: nat, code: i32, status: nat): Memory
    requires addr + REQUEST_SIZE <= SPACE && status < 0x1_0000
  {
    WriteStatus(WriteReturnCode(mem, addr, code), addr, status)
  }

  /** RUNNING, then return code 0. */
  function Started(mem: Memory, addr: nat): Memory
    requires addr + REQUEST_SIZE <= SPACE
  {
    WriteReturnCode(WriteStatus(mem, addr, STATUS_RUNNING), addr, 0)
  }

  lemma {:induction false} AnsweredRequest(mem: Memory, addr: nat, code: i32, status: nat)
    requires addr + REQUEST_SIZE <= SPACE && status < 0x1_0000
    ensures RequestAt(Answered(mem, addr, code, status), addr) == RequestAt(mem, addr).(returnCode := code, status := status)
  {
    ReturnCodeWritten(mem, addr, code);
    StatusWritten(WriteReturnCode(mem, addr, code), addr, status);
  }

  lemma {:induction false} StartedRequest(mem: Memory, addr: nat)
    requires addr + REQUEST_SIZE <= SPACE
    ensures RequestAt(Started(mem, addr), addr) == RequestAt(mem, addr).(returnCode := 0, status := STATUS_RUNNING)
  {
    StatusWritten(mem, addr, STATUS_RUNNING);
    ReturnCodeWritten(WriteStatus(mem, addr, STATUS_RUNNING), addr, 0);
  }

  /** The answer overwrites what was written at the start. */
  lemma {:induction false} AnsweredStarted(mem: Memory, addr: nat, code: i32, status: nat)
    requires addr + REQUEST_SIZE <= SPACE && status < 0x1_0000
    ensures Answered(Started(mem, addr), addr, code, status) == Answered(mem, addr, code, status)
  {
  }

  /** All calls so far were due and returned 0.  For a kernel that keeps the request, they are the workgroups
      before position `n`. */
  ghost predicate Going(j: Job, log: Log, mem: Memory, c: Grid, n: nat) {
    && JobOk(j) && Faithful(j, log) && InTurn(j, log) && AllZero(log) && mem == MemoryAfter(j, log, |log|)
    && (KeepsRequest(j.kernel, j.d, j.addr) ==> Ordered(c, log, n) && RequestAt(mem, j.addr) == RequestAt(j.start, j.addr))
  }

  /** The last call returned `code`, all others 0. */
  ghost predicate Stopped(j: Job, log: Log, mem: Memory, c: Grid, code: i32) {
    && JobOk(j) && Faithful(j, log) && InTurn(j, log) && log != [] && AllZero(log[..|log| - 1]) && log[|log| - 1].1 == code != 0
    && mem == MemoryAfter(j, log, |log|)
    && (KeepsRequest(j.kernel, j.d, j.addr) ==> Ordered(c, log, |log|) && RequestAt(mem, j.addr) == RequestAt(j.start, j.addr))
  }

  ghost predicate GoingOrStopped(j: Job, log: Log, mem: Memory, c: Grid, n: nat, code: i32) {
    if code == 0 then Going(j, log, mem, c, n) else Stopped(j, log, mem, c, code)
  }

  /** One call keeps what is known of the calls before. */
  lemma {:induction false} CallKeeps(j: Job, log: Log, mem: Memory, c: Grid, w: Workgroup, n: nat, r: KernelResult)
    requires Going(j, log, mem, c, n) && w.localAddr == RequestAt(mem, j.addr).localAddr && r == j.kernel(j.d, w, mem)
    requires Due(j, log, |log|) == Some(w.id)
    requires KeepsRequest(j.kernel, j.d, j.addr) ==> PlacedAt(c, w.id, n)
    ensures var log' := log + [(w, r.code)];
            && Faithful(j, log') && InTurn(j, log') && r.mem == MemoryAfter(j, log', |log'|)
            && Due(j, log', |log'|) == From(w.id.x + 1, w.id.y, w.id.z, RequestAt(r.mem, j.addr).count)
            && (KeepsRequest(j.kernel, j.d, j.addr) ==>
                  Ordered(c, log', n + 1) && RequestAt(r.mem, j.addr) == RequestAt(j.start, j.addr))
  {
    FaithfulAppend(j, log, w, r);
    InTurnAppend(j, log, w, r.code);
    if KeepsRequest(j.kernel, j.d, j.addr) {
      assert SameRequest(j.kernel(j.d, w, mem).mem, mem, j.addr);
      SameBytesSameRequest(r.mem, mem, j.addr);
    }
  }

  lemma IndexStep(c: Grid, x: nat, y: nat, z: nat)
    ensures IndexOf(c, x, y, z) == IndexOf(c, 0, y, z) + x
  {
  }

  class Device {
    var mem: Memory
    var log: Log

    constructor (m: Memory)
      ensures mem == m && log == []
    {
      mem, log := m, [];
    }

    method CallOne(kernel: Kernel, d: Dispatch, addr: nat, ghost j: Job, ghost c: Grid, g: Grid, ghost n: nat) returns (code: i32)
      requires j.kernel == kernel && j.d == d && j.addr == addr && Going(j, log, mem, c, n)
      requires Due(j, log, |log|) == Some(g) && (KeepsRequest(kernel, d, addr) ==> PlacedAt(c, g, n))
      modifies this
      ensures log != [] && GoingOrStopped(j, log, mem, c, n + 1, code)
      ensures Due(j, log, |log|) == From(g.x + 1, g.y, g.z, RequestAt(mem, addr).count)
    {
      var w := Workgroup(g, RequestAt(mem, addr).localAddr);
      var result := kernel(d, w, mem);
      CallKeeps(j, log, mem, c, w, n, result);
      code := result.code;
      mem := result.mem;
      log := log + [(w, code)];
      assert log[..|log| - 1] == old(log);
    }

    /** The innermost loop; its bound is read again before every call. */
    method RunRow(kernel: Kernel, d: Dispatch, addr: nat, ghost j: Job, ghost c: Grid, y: u32, z: u32, ghost n: nat)
        returns (code: i32)
      requires j.kernel == kernel && j.d == d && j.addr == addr && Going(j, log, mem, c, n)
      requires c == RequestAt(j.start, addr).count && (KeepsRequest(kernel, d, addr) ==> y < c.y && z < c.z && n == IndexOf(c, 0, y, z))
      requires Due(j, log, |log|) == From(0, y, z, RequestAt(mem, addr).count)
      modifies this
      ensures GoingOrStopped(j, log, mem, c, n + c.x, code)
      ensures code == 0 ==> Due(j, log, |log|) == Later(y + 1, z, RequestAt(mem, addr).count)
      ensures log == [] ==> c.x == 0
    {
      var x: u32, bound := 0, RequestAt(mem, addr).count.x;
      while x < bound
        invariant Going(j, log, mem, c, n + x) && (x > 0 ==> log != []) && bound == RequestAt(mem, addr).count.x
        invariant KeepsRequest(kernel, d, addr) ==> x <= c.x == bound
        invariant Due(j, log, |log|) == From(x, y, z, RequestAt(mem, addr).count)
        decreases SPACE - x
      {
        IndexStep(c, x, y, z);
        code := CallOne(kernel, d, addr, j, c, Grid(x, y, z), n + x);
        if code != 0 {
          return;
        }
        x, bound := x + 1, RequestAt(mem, addr).count.x;
      }
      code := 0;
    }

    method RunPlane(kernel: Kernel, d: Dispatch, addr: nat, ghost j: Job, ghost c: Grid, z: u32, ghost n: nat)
        returns (code: i32, ghost n': nat)
      requires j.kernel == kernel && j.d == d && j.addr == addr && Going(j, log, mem, c, n)
      requires c == RequestAt(j.start, addr).count && (KeepsRequest(kernel, d, addr) ==> z < c.z && n == IndexOf(c, 0, 0, z))
      requires Due(j, log, |log|) == Later(0, z, RequestAt(mem, addr).count)
      modifies this
      ensures GoingOrStopped(j, log, mem, c, n', code) && (KeepsRequest(kernel, d, addr) ==> n' == IndexOf(c, 0, 0, z + 1))
      ensures code == 0 ==> Due(j, log, |log|) == Last(z + 1, RequestAt(mem, addr).count)
      ensures log == [] ==> c.x == 0 || c.y == 0
    {
      var y: u32, bound := 0, RequestAt(mem, addr).count.y;
      n' := n;
      while y < bound
        invariant Going(j, log, mem, c, n') && (y > 0 && log == [] ==> c.x == 0)
        invariant bound == RequestAt(mem, addr).count.y
        invariant KeepsRequest(kernel, d, addr) ==> y <= c.y == bound && n' == IndexOf(c, 0, y, z)
        invariant Due(j, log, |log|) == Later(y, z, RequestAt(mem, addr).count)
        decreases SPACE - y
      {
        RowEnds(c, y, z);
        code := RunRow(kernel, d, addr, j, c, y, z, n');
        n' := n' + c.x;
        if code != 0 {
          n' := IndexOf(c, 0, 0, z + 1);
          return;
        }
        y, bound := y + 1, RequestAt(mem, addr).count.y;
      }
      PlaneEnds(c, z);
      code := 0;
    }

    /** The workgroup loop.  Every call is the one due by the counts then in the request, and the loop
        ends when none is.  A kernel that keeps the request is called for every workgroup in order
        while the codes are 0; any kernel is called at least once unless the grid is empty. */
    method RunGrid(kernel: Kernel, d: Dispatch, addr: nat, ghost j: Job) returns (code: i32)
      requires addr + REQUEST_SIZE <= SPACE && j == Job(kernel, d, addr, mem) && log == []
      modifies this
      ensures var c := RequestAt(j.start, addr).count;
              && GoingOrStopped(j, log, mem, c, Total(c), code) && (log == [] ==> Total(c) == 0)
              && (code == 0 ==> Due(j, log, |log|) == None)
    {
      ghost var c, n := RequestAt(mem, addr).count, 0;
      var z: u32, bound := 0, RequestAt(mem, addr).count.z;
      while z < bound
        invariant Going(j, log, mem, c, n) && (z > 0 && log == [] ==> c.x == 0 || c.y == 0)
        invariant bound == RequestAt(mem, addr).count.z
        invariant KeepsRequest(kernel, d, addr) ==> z <= c.z == bound && n == IndexOf(c, 0, 0, z)
        invariant Due(j, log, |log|) == Last(z, RequestAt(mem, addr).count)
        decreases SPACE - z
      {
        code, n := RunPlane(kernel, d, addr, j, c, z, n);
        if code != 0 {
          return;
        }
        z, bound := z + 1, RequestAt(mem, addr).count.z;
      }
      GridEnds(c);
      EmptyGrid(c);
      code := 0;
    }

    method Answer(addr: nat, code: i32, status: nat)
      requires addr + REQUEST_SIZE <= SPACE && status < 0x1_0000
      modifies this`mem
      ensures mem == Answered(old(mem), addr, code, status)
    {
      mem := WriteReturnCode(mem, addr, code);
      mem := WriteStatus(mem, addr, status);
    }

    /** The end of an accepted request, for any kernel: the answer is written over the memory `m`
        that the calls left. */
    ghost predicate Served(j: Job, c: Grid, m: Memory, code: i32)
      reads this
    {
      && GoingOrStopped(j, log, m, c, Total(c), code) && (log == [] ==> Total(c) == 0)
      && (code == 0 ==> Due(j, log, |log|) == None)
      && mem == Answered(m, j.addr, code, if code == 0 then STATUS_COMPLETE else STATUS_ERROR)
    }

    /** The firmware run on the request at `addr`.  A refused request is answered with the code of
        the first failing check and nothing else is touched. */
    method RunMain(addr: nat, lib: Library) returns (ghost left: Memory, ghost result: i32)
      requires log == [] && addr + REQUEST_SIZE <= SPACE
      modifies this
      ensures var r := RequestAt(old(mem), addr);
              var code := Refusal(r, lib);
              if code != 0 then log == [] && mem == Answered(old(mem), addr, code, STATUS_ERROR)
              else Served(Job(KernelOf(lib, r.ordinal), DispatchOf(r), addr, Started(old(mem), addr)), r.count, left, result)
    {
      left, result := mem, 0;
      var r := RequestAt(mem, addr);
      if r.magic != MAGIC || r.version != VERSION || r.status != STATUS_READY {
        Answer(addr, -1, STATUS_ERROR);
        return;
      }
      if (r.constantCount != 0 && r.constantsAddr == 0) ||
         (r.bindingCount != 0 && (r.ptrsAddr == 0 || r.lengthsAddr == 0)) {
        Answer(addr, -2, STATUS_ERROR);
        return;
      }
      left, result := Serve(addr, r, lib);
    }

    /** An accepted request. */
    method Serve(addr: nat, r: Request, lib: Library) returns (ghost left: Memory, ghost result: i32)
      requires log == [] && addr + REQUEST_SIZE <= SPACE && r == RequestAt(mem, addr) && Accepts(r)
      modifies this
      ensures var code := Refusal(r, lib);
              if code != 0 then log == [] && mem == Answered(old(mem), addr, code, STATUS_ERROR)
              else Served(Job(KernelOf(lib, r.ordinal), DispatchOf(r), addr, Started(old(mem), addr)), r.count, left, result)
    {
      left, result := mem, 0;
      mem := WriteStatus(mem, addr, STATUS_RUNNING);
      mem := WriteReturnCode(mem, addr, 0);
      StartedRequest(old(mem), addr);
      if lib.NoLibrary? {
        AnsweredStarted(old(mem), addr, -3, STATUS_ERROR);
        Answer(addr, -3, STATUS_ERROR);
        return;
      }
      if lib.exports.None? || r.ordinal >= |lib.exports.value| || lib.exports.value[r.ordinal].None? {
        AnsweredStarted(old(mem), addr, -4, STATUS_ERROR);
        Answer(addr, -4, STATUS_ERROR);
        return;
      }
      left, result := ServeGrid(addr, lib.exports.value[r.ordinal].value, DispatchOf(r));
    }

    method ServeGrid(addr: nat, kernel: Kernel, d: Dispatch) returns (ghost left: Memory, ghost result: i32)
      requires log == [] && addr + REQUEST_SIZE <= SPACE
      modifies this
      ensures Served(Job(kernel, d, addr, old(mem)), RequestAt(old(mem), addr).count, left, result)
    {
      var code := RunGrid(kernel, d, addr, Job(kernel, d, addr, mem));
      left, result := mem, code;
      Answer(addr, code, if code != 0 then STATUS_ERROR else STATUS_COMPLETE);
    }
  }

  lemma EmptyGrid(c: Grid)
    ensures c.x == 0 || c.y == 0 || c.z == 0 ==> Total(c) == 0
  {
  }

  lemma RowEnds(c: Grid, y: nat, z: nat)
    ensures IndexOf(c, 0, y, z) + c.x == IndexOf(c, 0, y + 1, z)
  {
  }

  lemma GridEnds(c: Grid)
    ensures IndexOf(c, 0, 0, c.z) == Total(c)
  {
  }

  lemma PlaneEnds(c: Grid, z: nat)
    ensures IndexOf(c, 0, c.y, z) == IndexOf(c, 0, 0, z + 1)
  {
  }
}
