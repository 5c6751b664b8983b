/** The dispatch from end to end: what a host that sees success knows about the run. */
module IssueDispatch {
  import opened Options
  import opened SimMemory
  import opened Firmware
  import opened DispatchMemory
  import opened DispatchRequest
  import opened HostDispatch
  import opened KernelView
  import Symbols = ElfSymbols

  // ----- the request -----

  /** The counts are stored in eight bits. */
  function BuildRequest(a: Args, h: Heap, ordinal: u32): (r: Request)
    requires a.maxConcurrency < 0x1_0000
    ensures FieldsFit(r)
  {
    Request(MAGIC, VERSION, STATUS_READY, 0, a.size, a.count, a.maxConcurrency, |a.constants| % 256, |a.bindings| % 256,
            ordinal, h.constants, h.ptrs, h.lengths, h.local)
  }

  /** A request built over a heap that does not start at 0 passes the firmware's first two checks,
      for any number of constants and bindings. */
  lemma RequestAccepted(a: Args, h: Heap, ordinal: u32, start: nat, end: nat)
    requires ArgsFit(a) && start > 0 && HeapOk(start, end, |a.constants|, |a.bindings|, a.localLength, h)
    ensures Accepts(BuildRequest(a, h, ordinal))
  {
  }

  /** The kernel is told the real counts exactly when both are at most 255. */
  lemma CountsExact(a: Args, h: Heap, ordinal: u32)
    requires a.maxConcurrency < 0x1_0000
    ensures var d := DispatchOf(BuildRequest(a, h, ordinal));
            d.constantCount == |a.constants| && d.bindingCount == |a.bindings| <==> |a.constants| <= 255 && |a.bindings| <= 255
  {
  }

  /** With 256 constants the kernel is given none. */
  lemma TruncatedConstants(a: Args, h: Heap, ordinal: u32)
    requires a.maxConcurrency < 0x1_0000 && |a.constants| == 256
    ensures DispatchOf(BuildRequest(a, h, ordinal)).constants == None
  {
  }

  /** Writing the request beside the heap leaves the upload in place. */
  lemma {:induction false} UploadedKept(mem: Memory, a: Args, h: Heap, start: nat, end: nat, addr: nat, data: Bytes)
    requires Uploaded(mem, a, h) && HeapOk(start, end, |a.constants|, |a.bindings|, a.localLength, h) && ArgsFit(a)
    requires end <= DDR_BASE && addr + |data| <= DDR_BASE && (addr + |data| <= start || end <= addr)
    ensures Uploaded(Overlay(mem, addr, data), a, h)
  {
    if a.constants != [] { HoldsKept(mem, h.constants, ConstantTable(a), addr, data); }
    if a.localLength != 0 { HoldsKept(mem, h.local, Zeros(a.localLength), addr, data); }
    if a.bindings != [] {
      var n := |a.bindings|;
      HoldsKept(mem, h.ptrs, PtrTable(a.bindings, n), addr, data);
      HoldsKept(mem, h.lengths, LengthTable(a.bindings, n), addr, data);
      MissesAll(a.bindings, n, addr, data);
      ContentsKept(mem, a.bindings, n, addr, data);
    }
  }

  // ----- read back -----

  /** What the caller's buffer `i` holds afterwards. */
  ghost function BufferAfter(mem: Memory, bindings: seq<Binding>, w: Option<seq<bool>>, i: nat): Option<Bytes>
    requires i < |bindings| && DdrFits(Lengths(bindings))
  {
    DdrRegions(Lengths(bindings), i, i);
    var at, n := DdrAddr(Lengths(bindings), i), bindings[i].length;
    if n != 0 && Writeable(w, i) then Some(mem[at..at + n]) else bindings[i].data
  }

  /** The second pass of the allocator: it meets the same addresses, cannot fail, and only
      writeable buffers are written. */
  method ReadBack(sim: Simulator, bindings: seq<Binding>, w: Option<seq<bool>>) returns (status: Status, buffers: seq<Option<Bytes>>)
    requires AllFit(bindings) && DdrFits(Lengths(bindings))
    ensures status == Ok && |buffers| == |bindings|
    ensures forall i :: 0 <= i < |bindings| ==> buffers[i] == BufferAfter(sim.mem, bindings, w, i)
  {
    var cursor: u32 := DDR_BASE;
    buffers := [];
    ghost var lengths := Lengths(bindings);
    for i := 0 to |bindings|
      invariant |buffers| == i && cursor == DdrCursor(lengths, i)
      invariant forall j :: 0 <= j < i ==> buffers[j] == BufferAfter(sim.mem, bindings, w, j)
    {
      var b := bindings[i];
      DdrRegions(lengths, i, i);
      assert BindingFits(b);
      var block := Allocate(cursor, DDR_LIMIT, 64, b.length);
      if block.None? {
        return ResourceExhausted, buffers;
      }
      cursor := block.value.next;
      var buffer := b.data;
      if b.length != 0 && Writeable(w, i) {
        var data := sim.ReadMem(block.value.addr, b.length);
        buffer := Some(data);
      }
      buffers := buffers + [buffer];
    }
    status := Ok;
  }

  // ----- the dispatch -----

  /** What the run did, for the statement of the result: `launch` is the memory the firmware
      starts from, `final` what the kernel calls left. */
  datatype Run = Run(layout: Symbols.Layout, heap: Heap, request: Request, launch: Memory, log: Log, final: Memory)

  /** The linker script keeps the request struct out of the heap. */
  ghost predicate RequestApart(l: Symbols.Layout) {
    l.requestAddr + REQUEST_SIZE <= l.heapStart || l.heapEnd <= l.requestAddr
  }

  ghost predicate LayoutFits(l: Symbols.Layout) {
    && l.requestSize == REQUEST_SIZE && Symbols.InDtcm(l.requestAddr, REQUEST_SIZE)
    && l.heapStart <= l.heapEnd && Symbols.InDtcm(l.heapStart, l.heapEnd - l.heapStart)
  }

  /** The request is in memory; outside the heap, it leaves all uploaded arguments in place, and the
      first kernel call finds them through the addresses that it is handed. */
  ghost predicate Launched(a: Args, ordinal: nat, run: Run) {
    && LayoutFits(run.layout) && ordinal < SPACE && a.maxConcurrency < 0x1_0000
    && run.request == BuildRequest(a, run.heap, ordinal) && RequestAt(run.launch, run.layout.requestAddr) == run.request
    && HeapOk(run.layout.heapStart, run.layout.heapEnd, |a.constants|, |a.bindings|, a.localLength, run.heap)
    && (RequestApart(run.layout) ==>
          && Uploaded(Started(run.launch, run.layout.requestAddr), a, run.heap)
          && Finds(a, DispatchOf(run.request), LocalAddr(run), Started(run.launch, run.layout.requestAddr)))
  }

  /** The local memory that the first workgroup is given. */
  function LocalAddr(run: Run): u32
    requires LayoutFits(run.layout)
  {
    RequestAt(Started(run.launch, run.layout.requestAddr), run.layout.requestAddr).localAddr
  }

  /** The kernel of the ordinal is the one that is called, and its first call finds the arguments. */
  ghost predicate FirstCallFinds(a: Args, ordinal: nat, lib: Library, run: Run) {
    LayoutFits(run.layout) && HasExport(lib, ordinal) && RequestApart(run.layout) && run.log != [] ==>
      var j := JobOf(ordinal, lib, run);
      && j.kernel == lib.exports.value[ordinal].value
      && run.log[0].1 == j.kernel(j.d, run.log[0].0, j.start).code
      && Finds(a, j.d, run.log[0].0.localAddr, j.start)
  }

  /** The kernel calls of the run. */
  ghost function JobOf(ordinal: nat, lib: Library, run: Run): Job
    requires HasExport(lib, ordinal) && LayoutFits(run.layout)
  {
    var addr := run.layout.requestAddr;
    Job(KernelOf(lib, ordinal), DispatchOf(run.request), addr, Started(run.launch, addr))
  }

  /** The hypothesis about kernels: they never change the bytes of the request. */
  ghost predicate WellBehaved(ordinal: nat, lib: Library, run: Run)
    requires HasExport(lib, ordinal) && LayoutFits(run.layout)
  {
    var j := JobOf(ordinal, lib, run);
    KeepsRequest(j.kernel, j.d, j.addr)
  }

  predicate Intact(r: Request) {
    r.magic == MAGIC && r.version == VERSION
  }

  /** For any kernel: every call returned 0, on the memory the call before left, and there was a
      call unless the grid is empty.  A kernel that keeps the request was called for every
      workgroup of the grid, in order. */
  ghost predicate AllWorkgroupsRan(a: Args, ordinal: nat, lib: Library, run: Run) {
    && LayoutFits(run.layout) && HasExport(lib, ordinal)
    && Going(JobOf(ordinal, lib, run), run.log, run.final, a.count, Total(a.count))
    && (run.log == [] ==> Total(a.count) == 0)
  }

  /** A failed run: no such export, or the last workgroup called returned a nonzero code. */
  ghost predicate RunFailed(a: Args, ordinal: nat, lib: Library, run: Run) {
    && LayoutFits(run.layout)
    && if HasExport(lib, ordinal)
       then exists code: i32 :: code != 0 && Stopped(JobOf(ordinal, lib, run), run.log, run.final, a.count, code)
       else run.log == [] && run.final == run.launch
  }

  lemma {:induction false} UploadedAtStart(mem: Memory, a: Args, h: Heap, l: Symbols.Layout)
    requires Uploaded(mem, a, h) && HeapOk(l.heapStart, l.heapEnd, |a.constants|, |a.bindings|, a.localLength, h) && ArgsFit(a)
    requires LayoutFits(l) && RequestApart(l)
    ensures Uploaded(Started(mem, l.requestAddr), a, h)
  {
    UploadedTwice(mem, a, h, l, [STATUS_RUNNING % 0x100, STATUS_RUNNING / 0x100], WordBytes(ToU32(0)));
  }

  lemma {:induction false} UploadedTwice(mem: Memory, a: Args, h: Heap, l: Symbols.Layout, status: Bytes, code: Bytes)
    requires Uploaded(mem, a, h) && HeapOk(l.heapStart, l.heapEnd, |a.constants|, |a.bindings|, a.localLength, h) && ArgsFit(a)
    requires LayoutFits(l) && RequestApart(l) && |status| == 2 && |code| == 4
    ensures Uploaded(Overlay(Overlay(mem, l.requestAddr + 6, status), l.requestAddr + 8, code), a, h)
  {
    UploadedBeside(mem, a, h, l, l.requestAddr + 6, status);
    UploadedBeside(Overlay(mem, l.requestAddr + 6, status), a, h, l, l.requestAddr + 8, code);
  }

  /** A write inside the request struct. */
  lemma {:induction false} UploadedBeside(mem: Memory, a: Args, h: Heap, l: Symbols.Layout, at: nat, data: Bytes)
    requires Uploaded(mem, a, h) && HeapOk(l.heapStart, l.heapEnd, |a.constants|, |a.bindings|, a.localLength, h) && ArgsFit(a)
    requires LayoutFits(l) && RequestApart(l) && l.requestAddr <= at && at + |data| <= l.requestAddr + REQUEST_SIZE
    ensures Uploaded(Overlay(mem, at, data), a, h)
  {
    UploadedKept(mem, a, h, l.heapStart, l.heapEnd, at, data);
  }

  /** Upload and the write of the request. */
  method Launch(sim: Simulator, l: Symbols.Layout, a: Args, ordinal: u32) returns (status: Status, request: Request, h: Heap)
    requires ArgsFit(a) && LayoutFits(l)
    modifies sim
    ensures status in {Ok, ResourceExhausted, InvalidArgument}
    ensures status == Ok <==> CanUpload(a, l.heapStart, l.heapEnd)
    ensures status == Ok ==>
              && BindingsOk(a.bindings, |a.bindings|) && Accepts(request)
              && Launched(a, ordinal, Run(l, h, request, sim.mem, [], sim.mem))
  {
    status, h := Upload(sim, a, l.heapStart, l.heapEnd);
    request := BuildRequest(a, h, ordinal);
    if status != Ok {
      return;
    }
    RequestAccepted(a, h, ordinal, l.heapStart, l.heapEnd);
    HoldsWritten(sim.mem, l.requestAddr, RequestBytes(request));
    if RequestApart(l) {
      UploadedKept(sim.mem, a, h, l.heapStart, l.heapEnd, l.requestAddr, RequestBytes(request));
    }
    sim.WriteMem(l.requestAddr, RequestBytes(request));
    RequestReadBack(sim.mem, l.requestAddr, request);
    StartedRequest(sim.mem, l.requestAddr);
    if RequestApart(l) {
      UploadedAtStart(sim.mem, a, h, l);
      UploadedIsFound(Started(sim.mem, l.requestAddr), a, h, l.heapStart, l.heapEnd, DispatchOf(request), h.local);
    }
  }

  /** The host's verdict on the request it reads back. */
  function Verdict(answer: Request): Status {
    if answer.magic != MAGIC || answer.version != VERSION then DataLoss
    else if answer.status != STATUS_COMPLETE then Internal
    else if answer.returnCode != 0 then Internal
    else Ok
  }

  /** The verdict after the run: the firmware's own answer, unless the calls destroyed the magic
      number or the version. */
  ghost predicate Judged(a: Args, ordinal: nat, lib: Library, run: Run, status: Status)
    requires LayoutFits(run.layout)
  {
    var intact := Intact(RequestAt(run.final, run.layout.requestAddr));
    && (status == DataLoss <==> !intact)
    && (status == Ok ==> AllWorkgroupsRan(a, ordinal, lib, run))
    && (status == Internal ==> RunFailed(a, ordinal, lib, run))
    && (status == DataLoss ==> HasExport(lib, ordinal) && !WellBehaved(ordinal, lib, run))
    && status in {Ok, Internal, DataLoss}
  }

  /** `simulator_run` and the reading of the answer. */
  method RunFirmware(sim: Simulator, l: Symbols.Layout, a: Args, ordinal: u32, lib: Library, request: Request, ghost h: Heap)
      returns (status: Status, ghost run: Run)
    requires LayoutFits(l) && Launched(a, ordinal, Run(l, h, request, sim.mem, [], sim.mem)) && Accepts(request)
    modifies sim
    ensures run.layout == l && run.heap == h && run.request == request && run.launch == old(sim.mem)
    ensures Judged(a, ordinal, lib, run, status) && FirstCallFinds(a, ordinal, lib, run)
    ensures status == Ok ==> sim.mem == Answered(run.final, l.requestAddr, 0, STATUS_COMPLETE)
  {
    var addr: nat := l.requestAddr;
    ghost var launch := sim.mem;
    var device := new Device(sim.mem);
    ghost var left, result := device.RunMain(addr, lib);
    sim.mem := device.mem;
    ghost var code := Refusal(request, lib);
    run := Run(l, h, request, launch, device.log, if code != 0 then launch else left);
    status := Verdict(RequestAt(sim.mem, addr));
    if code != 0 {
      AnsweredRequest(launch, addr, code, STATUS_ERROR);
    } else {
      AnsweredRequest(left, addr, result, if result == 0 then STATUS_COMPLETE else STATUS_ERROR);
      StartedRequest(launch, addr);
      JudgedServed(a, ordinal, lib, run, result);
      FirstCall(a, ordinal, lib, run);
    }
  }

  lemma {:induction false} FirstCall(a: Args, ordinal: nat, lib: Library, run: Run)
    requires LayoutFits(run.layout) && HasExport(lib, ordinal) && Faithful(JobOf(ordinal, lib, run), run.log)
    requires RequestApart(run.layout) ==>
               Finds(a, DispatchOf(run.request), LocalAddr(run), Started(run.launch, run.layout.requestAddr))
    ensures FirstCallFinds(a, ordinal, lib, run)
  {
    if run.log != [] { assert FaithfulAt(JobOf(ordinal, lib, run), run.log, 0); }
  }

  lemma {:induction false} JudgedServed(a: Args, ordinal: nat, lib: Library, run: Run, code: i32)
    requires LayoutFits(run.layout) && HasExport(lib, ordinal) && Intact(run.request) && run.request.count == a.count
    requires RequestAt(run.launch, run.layout.requestAddr) == run.request
    requires GoingOrStopped(JobOf(ordinal, lib, run), run.log, run.final, a.count, Total(a.count), code)
    requires run.log == [] ==> Total(a.count) == 0
    ensures var answer := RequestAt(run.final, run.layout.requestAddr);
            Judged(a, ordinal, lib, run, if !Intact(answer) then DataLoss else if code == 0 then Ok else Internal)
  {
    StartedRequest(run.launch, run.layout.requestAddr);
  }

  /** From the loaded firmware to the host's verdict. */
  method Execute(sim: Simulator, l: Symbols.Layout, a: Args, ordinal: u32, lib: Library) returns (status: Status, ghost run: Run)
    requires ArgsFit(a) && LayoutFits(l)
    modifies sim
    ensures status in {Ok, ResourceExhausted, InvalidArgument, Internal, DataLoss}
    ensures status in {Ok, Internal, DataLoss} <==> CanUpload(a, l.heapStart, l.heapEnd)
    ensures status in {Ok, Internal, DataLoss} ==> run.layout == l && Launched(a, ordinal, run)
    ensures status in {Ok, Internal, DataLoss} ==> Judged(a, ordinal, lib, run, status) && FirstCallFinds(a, ordinal, lib, run)
    ensures status == Ok ==> BindingsOk(a.bindings, |a.bindings|)
    ensures status == Ok ==> sim.mem == Answered(run.final, l.requestAddr, 0, STATUS_COMPLETE)
  {
    var request, h;
    status, request, h := Launch(sim, l, a, ordinal);
    run := Run(l, h, request, sim.mem, [], sim.mem);
    if status != Ok {
      return;
    }
    status, run := RunFirmware(sim, l, a, ordinal, lib, request, h);
  }

  /** A kernel that overwrites the request is found out: with one that clears memory, every
      dispatch of a grid that is not empty ends in DATA_LOSS. */
  method ClearingKernelReported(sim: Simulator, l: Symbols.Layout, a: Args, ordinal: u32, lib: Library) returns (status: Status)
    requires ArgsFit(a) && LayoutFits(l) && CanUpload(a, l.heapStart, l.heapEnd) && Total(a.count) > 0
    requires HasExport(lib, ordinal) && forall d, w, m :: KernelOf(lib, ordinal)(d, w, m) == KernelResult(0, Zeros(SPACE))
    modifies sim
    ensures status == DataLoss
  {
    ghost var run;
    status, run := Execute(sim, l, a, ordinal, lib);
    if status != DataLoss {
      ghost var j := JobOf(ordinal, lib, run);
      ClearedMemory(j, run.log);
    }
  }

  lemma {:induction false} ClearedMemory(j: Job, log: Log)
    requires JobOk(j) && log != [] && forall d, w, m :: j.kernel(d, w, m) == KernelResult(0, Zeros(SPACE))
    ensures !Intact(RequestAt(MemoryAfter(j, log, |log|), j.addr))
  {
    assert MemoryAfter(j, log, |log|) == Zeros(SPACE);
    WordsIndex(Zeros(SPACE), j.addr, REQUEST_WORDS, 0);
  }

  /** What success means.  For any kernel: the arguments were uploaded, every call returned 0,
      writeable buffers hold the kernel's bytes and the others are untouched.  For a kernel that
      keeps the request: every workgroup id of the grid was invoked exactly once, in z-y-x
      order. */
  ghost predicate Succeeded(a: Args, w: Option<seq<bool>>, ordinal: nat, lib: Library, run: Run, buffers: seq<Option<Bytes>>) {
    && Launched(a, ordinal, run) && AllWorkgroupsRan(a, ordinal, lib, run)
    && (WellBehaved(ordinal, lib, run) ==> forall g :: InGrid(a.count, g) ==> CalledOnce(run.log, g))
    && BindingsOk(a.bindings, |a.bindings|) && DdrFits(Lengths(a.bindings)) && |buffers| == |a.bindings|
    && (forall i :: 0 <= i < |a.bindings| ==> buffers[i] == BufferAfter(run.final, a.bindings, w, i))
    && (RequestApart(run.layout) ==>
          var j := JobOf(ordinal, lib, run);
          Returned(a, w, j.d, j.start, run.final, buffers))
  }

  /** The buffers against the addresses that the kernel was handed. */
  lemma {:induction false} BuffersReturned(a: Args, w: Option<seq<bool>>, ordinal: nat, lib: Library, run: Run, buffers: seq<Option<Bytes>>)
    requires ArgsFit(a) && Launched(a, ordinal, run) && HasExport(lib, ordinal) && RequestApart(run.layout)
    requires BindingsOk(a.bindings, |a.bindings|) && DdrFits(Lengths(a.bindings)) && |buffers| == |a.bindings|
    requires forall i :: 0 <= i < |a.bindings| ==> buffers[i] == BufferAfter(run.final, a.bindings, w, i)
    ensures var j := JobOf(ordinal, lib, run); Returned(a, w, j.d, j.start, run.final, buffers)
  {
    var j := JobOf(ordinal, lib, run);
    if j.d.ptrs.Some? { AllReturned(j.start, run.final, a, run.heap, w, j.d, buffers); }
  }

  lemma {:induction false} AllReturned(m: Memory, final: Memory, a: Args, h: Heap, w: Option<seq<bool>>, d: Dispatch, buffers: seq<Option<Bytes>>)
    requires ArgsFit(a) && Uploaded(m, a, h) && BindingsOk(a.bindings, |a.bindings|) && DdrFits(Lengths(a.bindings))
    requires d.ptrs == Some(h.ptrs) && |buffers| == |a.bindings| && h.ptrs + 4 * |a.bindings| <= SPACE
    requires forall i :: 0 <= i < |a.bindings| ==> buffers[i] == BufferAfter(final, a.bindings, w, i)
    ensures Returned(a, w, d, m, final, buffers)
  {
    forall i | 0 <= i < |a.bindings|
      ensures ReturnedAt(a.bindings[i], Writeable(w, i), WordAt(m, h.ptrs + 4 * i), final, buffers[i])
    {
      PointerIs(m, a, h, i);
      assert buffers[i] == BufferAfter(final, a.bindings, w, i);
    }
  }

  method RunLoaded(sim: Simulator, l: Symbols.Layout, a: Args, w: Option<seq<bool>>, ordinal: u32, lib: Library)
      returns (status: Status, buffers: seq<Option<Bytes>>, ghost run: Run)
    requires ArgsFit(a) && LayoutFits(l)
    modifies sim
    ensures status in {Ok, Internal, DataLoss} <==> CanUpload(a, l.heapStart, l.heapEnd)
    ensures status in {Ok, Internal, DataLoss} ==>
              run.layout == l && Judged(a, ordinal, lib, run, status) && FirstCallFinds(a, ordinal, lib, run)
    ensures status == Ok ==> Succeeded(a, w, ordinal, lib, run, buffers)
  {
    buffers := [];
    status, run := Execute(sim, l, a, ordinal, lib);
    if status != Ok {
      return;
    }
    BindingsFit(a.bindings);
    status, buffers := Collect(sim, l, a.bindings, w, run.final);
    if WellBehaved(ordinal, lib, run) { AllCalledOnce(a.count, run.log); }
    if RequestApart(l) { BuffersReturned(a, w, ordinal, lib, run, buffers); }
  }

  /** Exactly the calls that reach the firmware. */
  ghost predicate Dispatchable(image: Bytes, a: Args, ordinal: nat, mem: Memory) {
    && ordinal < SPACE && (a.constants == [] || a.constantsSet) && (a.bindings == [] || a.bindingsSet)
    && Symbols.Loadable(image, mem) && HasGoodLayout(image, a)
  }

  ghost predicate HasGoodLayout(image: Bytes, a: Args) {
    exists l :: GoodLayout(image, a, l)
  }

  ghost predicate GoodLayout(image: Bytes, a: Args, l: Symbols.Layout) {
    Symbols.LayoutOk(image, l) && l.requestSize == REQUEST_SIZE && CanUpload(a, l.heapStart, l.heapEnd)
  }

  lemma LayoutUnique(image: Bytes, l: Symbols.Layout, l': Symbols.Layout)
    requires Symbols.LayoutOk(image, l) && Symbols.LayoutOk(image, l')
    ensures l == l'
  {
    Symbols.SymbolsUnique(image, Symbols.Sections(image), Symbols.FIRMWARE_NAMES, l, l');
  }

  lemma OnlyLayout(image: Bytes, a: Args, l: Symbols.Layout)
    requires Symbols.LayoutOk(image, l)
    ensures HasGoodLayout(image, a) <==> GoodLayout(image, a, l)
  {
    if HasGoodLayout(image, a) {
      var l' :| GoodLayout(image, a, l');
      LayoutUnique(image, l, l');
    }
  }

  /** The argument checks before the firmware is loaded. */
  method CheckArguments(a: Args, ordinal: nat) returns (status: Status)
    ensures status in {Ok, OutOfRange, InvalidArgument}
    ensures status == Ok <==>
            ordinal < SPACE && (a.constants == [] || a.constantsSet) && (a.bindings == [] || a.bindingsSet)
  {
    if ordinal >= SPACE {
      return OutOfRange;
    }
    if a.constants != [] && !a.constantsSet {
      return InvalidArgument;
    }
    if a.bindings != [] && !a.bindingsSet {
      return InvalidArgument;
    }
    return Ok;
  }

  /** What is known after a run of the firmware of `image`. */
  ghost predicate Ran(image: Bytes, a: Args, ordinal: nat, lib: Library, run: Run, status: Status) {
    && LayoutFits(run.layout) && Symbols.LayoutOk(image, run.layout)
    && Judged(a, ordinal, lib, run, status) && FirstCallFinds(a, ordinal, lib, run)
  }

  /** With the layout of the loaded image: it must have a request of 60 bytes. */
  method RunIn(sim: Simulator, image: Bytes, l: Symbols.Layout, a: Args, w: Option<seq<bool>>, ordinal: u32, lib: Library)
      returns (status: Status, buffers: seq<Option<Bytes>>, ghost run: Run)
    requires ArgsFit(a) && Symbols.LayoutOk(image, l)
    modifies sim
    ensures status in {Ok, Internal, DataLoss} <==> GoodLayout(image, a, l)
    ensures status in {Ok, Internal, DataLoss} ==> Ran(image, a, ordinal, lib, run, status)
    ensures status == Ok ==> Succeeded(a, w, ordinal, lib, run, buffers)
  {
    buffers, run := [], NoRun(a, sim.mem);
    if l.requestSize != REQUEST_SIZE {
      status := FailedPrecondition;
      return;
    }
    status, buffers, run := RunLoaded(sim, l, a, w, ordinal, lib);
  }

  /** The rest of the call: load the firmware, look at its layout, run. */
  method LoadAndRun(sim: Simulator, image: Bytes, a: Args, w: Option<seq<bool>>, ordinal: u32, lib: Library)
      returns (status: Status, buffers: seq<Option<Bytes>>, ghost run: Run)
    requires ArgsFit(a)
    modifies sim
    ensures status in {Ok, Internal, DataLoss} <==> Symbols.Loadable(image, old(sim.mem)) && HasGoodLayout(image, a)
    ensures status in {Ok, Internal, DataLoss} ==> Ran(image, a, ordinal, lib, run, status)
    ensures status == Ok ==> Succeeded(a, w, ordinal, lib, run, buffers)
  {
    buffers := [];
    run := NoRun(a, sim.mem);
    var layout;
    status, layout := Symbols.LoadElfWithLayout(sim, image);
    if status != Ok {
      return;
    }
    OnlyLayout(image, a, layout);
    status, buffers, run := RunIn(sim, image, layout, a, w, ordinal, lib);
  }

  ghost function NoRun(a: Args, mem: Memory): Run
    requires ArgsFit(a)
  {
    Run(Symbols.Layout(0, 0, 0, 0, 0), Heap(0, 0, 0, 0), BuildRequest(a, Heap(0, 0, 0, 0), 0), mem, [], mem)
  }

  /** `issue_dispatch_inline`. */
  method IssueDispatchInline(sim: Simulator, image: Bytes, a: Args, w: Option<seq<bool>>, ordinal: nat, lib: Library)
      returns (status: Status, buffers: seq<Option<Bytes>>, ghost run: Run)
    requires ArgsFit(a)
    modifies sim
    ensures status in {Ok, Internal, DataLoss} <==> Dispatchable(image, a, ordinal, old(sim.mem))
    ensures status in {Ok, Internal, DataLoss} ==> Ran(image, a, ordinal, lib, run, status)
    ensures status == Ok ==> Succeeded(a, w, ordinal, lib, run, buffers)
  {
    buffers := [];
    run := NoRun(a, sim.mem);
    status := CheckArguments(a, ordinal);
    if status != Ok {
      return;
    }
    status, buffers, run := LoadAndRun(sim, image, a, w, ordinal, lib);
  }

  lemma AllCalledOnce(c: Grid, log: Log)
    requires Ordered(c, log, Total(c))
    ensures forall g :: InGrid(c, g) ==> CalledOnce(log, g)
  {
    forall g | InGrid(c, g) ensures CalledOnce(log, g) {
      OrderedIsOnce(c, log, g);
    }
  }

  /** The read-back sees the bytes the kernel left. */
  method Collect(sim: Simulator, l: Symbols.Layout, bindings: seq<Binding>, w: Option<seq<bool>>, ghost final: Memory)
      returns (status: Status, buffers: seq<Option<Bytes>>)
    requires AllFit(bindings) && DdrFits(Lengths(bindings)) && l.requestAddr + REQUEST_SIZE <= DDR_BASE
    requires sim.mem == Answered(final, l.requestAddr, 0, STATUS_COMPLETE)
    ensures status == Ok && |buffers| == |bindings|
    ensures forall i :: 0 <= i < |bindings| ==> buffers[i] == BufferAfter(final, bindings, w, i)
  {
    status, buffers := ReadBack(sim, bindings, w);
    forall i | 0 <= i < |bindings| ensures buffers[i] == BufferAfter(final, bindings, w, i) {
      BufferBeyondRequest(final, l.requestAddr, bindings, w, i);
    }
  }

  /** The request struct lies below the DDR window, so writing it does not touch a buffer. */
  lemma {:induction false} BufferBeyondRequest(final: Memory, addr: nat, bindings: seq<Binding>, w: Option<seq<bool>>, i: nat)
    requires i < |bindings| && DdrFits(Lengths(bindings)) && addr + REQUEST_SIZE <= DDR_BASE
    ensures BufferAfter(Answered(final, addr, 0, STATUS_COMPLETE), bindings, w, i) == BufferAfter(final, bindings, w, i)
  {
    DdrRegions(Lengths(bindings), i, i);
    var at := DdrAddr(Lengths(bindings), i);
    var m := WriteReturnCode(final, addr, 0);
    OverlayElsewhere(final, addr + 8, WordBytes(ToU32(0)), at, at + bindings[i].length);
    OverlayElsewhere(m, addr + 6, [STATUS_COMPLETE % 0x100, STATUS_COMPLETE / 0x100], at, at + bindings[i].length);
  }
}
