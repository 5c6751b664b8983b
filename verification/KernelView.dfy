/** What a kernel finds: the arguments of the host, seen only through the addresses that the kernel
    is handed and the bytes that are there. */
module KernelView {
  import opened Options
  import opened SimMemory
  import opened DispatchMemory
  import opened DispatchRequest
  import opened HostDispatch
  import opened Firmware

  /** The words of a table, from `addr` on. */
  ghost predicate FindsWords(m: Memory, addr: nat, words: seq<u32>) {
    addr + 4 * |words| <= SPACE && forall i :: 0 <= i < |words| ==> WordAt(m, addr + 4 * i) == words[i]
  }

  /** Word `i` of one table is a 64-aligned address at which the bytes of binding `i` stand, word `i`
      of the other their number. */
  ghost predicate FindsBinding(m: Memory, ptrs: nat, lengths: nat, b: Binding, i: nat)
    requires ptrs + 4 * i + 4 <= SPACE && lengths + 4 * i + 4 <= SPACE
  {
    var p := WordAt(m, ptrs + 4 * i);
    && p % 64 == 0 && p + b.length <= SPACE && WordAt(m, lengths + 4 * i) == b.length
    && (b.length != 0 ==> b.data.Some? && m[p..p + b.length] == b.data.value)
  }

  ghost predicate FindsBindings(m: Memory, ptrs: nat, lengths: nat, bs: seq<Binding>) {
    && ptrs + 4 * |bs| <= SPACE && lengths + 4 * |bs| <= SPACE
    && (forall i :: 0 <= i < |bs| ==> FindsBinding(m, ptrs, lengths, bs[i], i))
    && (forall i, j :: 0 <= i < j < |bs| ==> InOrder(m, ptrs, bs, i, j))
  }

  /** The bytes of one binding end before those of a later one begin. */
  ghost predicate InOrder(m: Memory, ptrs: nat, bs: seq<Binding>, i: nat, j: nat)
    requires i < j < |bs| && ptrs + 4 * |bs| <= SPACE
  {
    WordAt(m, ptrs + 4 * i) + bs[i].length <= WordAt(m, ptrs + 4 * j)
  }

  /** The kernel is told the sizes, the counts modulo 256, and where everything is; the tables, the
      constants, the bytes of the bindings and zeroed local memory are there. */
  ghost predicate Finds(a: Args, d: Dispatch, localAddr: u32, m: Memory) {
    && d.size == a.size && d.count == a.count && d.maxConcurrency == a.maxConcurrency
    && d.constantCount == |a.constants| % 256 && d.bindingCount == |a.bindings| % 256
    && (d.constants.Some? <==> d.constantCount != 0) && (d.ptrs.Some? <==> d.bindingCount != 0)
    && (d.lengths.Some? <==> d.bindingCount != 0)
    && (d.constants.Some? ==> d.constants.value % 4 == 0 && FindsWords(m, d.constants.value, a.constants))
    && (d.ptrs.Some? && d.lengths.Some? ==>
          d.ptrs.value % 4 == 0 && d.lengths.value % 4 == 0 && FindsBindings(m, d.ptrs.value, d.lengths.value, a.bindings))
    && (if a.localLength == 0 then localAddr == 0
        else localAddr % 64 == 0 && localAddr != 0 && localAddr + a.localLength <= SPACE &&
             m[localAddr..localAddr + a.localLength] == Zeros(a.localLength))
  }

  /** The caller's buffers afterwards: writeable ones hold what stands at the addresses that the
      kernel was handed, the others are untouched. */
  ghost predicate Returned(a: Args, w: Option<seq<bool>>, d: Dispatch, m: Memory, final: Memory, buffers: seq<Option<Bytes>>) {
    d.ptrs.Some? ==>
      && |buffers| == |a.bindings| && d.ptrs.value + 4 * |a.bindings| <= SPACE
      && forall i :: 0 <= i < |a.bindings| ==> ReturnedAt(a.bindings[i], Writeable(w, i), WordAt(m, d.ptrs.value + 4 * i), final, buffers[i])
  }

  predicate Writeable(w: Option<seq<bool>>, i: nat) {
    w.None? || (i < |w.value| && w.value[i])
  }

  ghost predicate ReturnedAt(b: Binding, writeable: bool, p: nat, final: Memory, buffer: Option<Bytes>) {
    p + b.length <= SPACE && buffer == if b.length != 0 && writeable then Some(final[p..p + b.length]) else b.data
  }

  // ----- from the upload -----

  lemma HoldsSlice(m: Memory, addr: nat, data: Bytes)
    requires Holds(m, addr, data)
    ensures m[addr..addr + |data|] == data
  {
  }

  lemma {:induction false} UploadedConstants(m: Memory, a: Args, h: Heap)
    requires Uploaded(m, a, h) && a.constants != []
    ensures FindsWords(m, h.constants, a.constants)
  {
    forall i | 0 <= i < |a.constants| ensures WordAt(m, h.constants + 4 * i) == a.constants[i] {
      TableRead(m, h.constants, a.constants, i);
    }
  }

  /** The address in the pointer table is the one of the allocator. */
  lemma {:induction false} PointerIs(m: Memory, a: Args, h: Heap, i: nat)
    requires Uploaded(m, a, h) && ArgsFit(a) && BindingsOk(a.bindings, |a.bindings|) && i < |a.bindings|
    ensures h.ptrs + 4 * i + 4 <= SPACE && WordAt(m, h.ptrs + 4 * i) == DdrAddr(Lengths(a.bindings), i)
    ensures DdrFits(Lengths(a.bindings)) && DdrAddr(Lengths(a.bindings), i) + a.bindings[i].length <= SPACE
  {
    var lengths := Lengths(a.bindings);
    BindingsFit(a.bindings);
    DdrRegions(lengths, i, i);
    assert Addresses(lengths)[i] == DdrAddr(lengths, i);
    TableRead(m, h.ptrs, Addresses(lengths), i);
  }

  lemma {:induction false} UploadedBinding(m: Memory, a: Args, h: Heap, i: nat)
    requires Uploaded(m, a, h) && ArgsFit(a) && BindingsOk(a.bindings, |a.bindings|) && i < |a.bindings|
    ensures h.ptrs + 4 * i + 4 <= SPACE && h.lengths + 4 * i + 4 <= SPACE
    ensures FindsBinding(m, h.ptrs, h.lengths, a.bindings[i], i)
  {
    var bs := a.bindings;
    TablesDescribe(m, bs, h.ptrs, h.lengths, i);
    PointerIs(m, a, h, i);
    assert BindingStatus(bs, i) == Ok;
    HoldsSlice(m, WordAt(m, h.ptrs + 4 * i), Data(bs[i]));
  }

  lemma {:induction false} UploadedInOrder(m: Memory, a: Args, h: Heap, i: nat, j: nat)
    requires Uploaded(m, a, h) && ArgsFit(a) && BindingsOk(a.bindings, |a.bindings|) && i < j < |a.bindings|
    ensures h.ptrs + 4 * |a.bindings| <= SPACE && InOrder(m, h.ptrs, a.bindings, i, j)
  {
    PointerIs(m, a, h, |a.bindings| - 1);
    PointerIs(m, a, h, i);
    PointerIs(m, a, h, j);
    DdrRegions(Lengths(a.bindings), i, j);
  }

  lemma {:induction false} UploadedBindings(m: Memory, a: Args, h: Heap)
    requires Uploaded(m, a, h) && ArgsFit(a) && BindingsOk(a.bindings, |a.bindings|) && a.bindings != []
    ensures FindsBindings(m, h.ptrs, h.lengths, a.bindings)
  {
    UploadedBinding(m, a, h, |a.bindings| - 1);
    forall i | 0 <= i < |a.bindings| ensures FindsBinding(m, h.ptrs, h.lengths, a.bindings[i], i) { UploadedBinding(m, a, h, i); }
    forall i, j | 0 <= i < j < |a.bindings| ensures InOrder(m, h.ptrs, a.bindings, i, j) { UploadedInOrder(m, a, h, i, j); }
  }

  /** A kernel that is handed the addresses of the upload finds the arguments. */
  lemma {:induction false} UploadedIsFound(m: Memory, a: Args, h: Heap, start: nat, end: nat, d: Dispatch, localAddr: u32)
    requires Uploaded(m, a, h) && ArgsFit(a) && BindingsOk(a.bindings, |a.bindings|) && start > 0
    requires HeapOk(start, end, |a.constants|, |a.bindings|, a.localLength, h)
    requires d.size == a.size && d.count == a.count && d.maxConcurrency == a.maxConcurrency && localAddr == h.local
    requires d.constantCount == |a.constants| % 256 && d.bindingCount == |a.bindings| % 256
    requires d.constants == if d.constantCount == 0 then None else Some(h.constants)
    requires d.ptrs == if d.bindingCount == 0 then None else Some(h.ptrs)
    requires d.lengths == if d.bindingCount == 0 then None else Some(h.lengths)
    ensures Finds(a, d, localAddr, m)
  {
    if d.constantCount != 0 { UploadedConstants(m, a, h); }
    if d.bindingCount != 0 { UploadedBindings(m, a, h); }
    if a.localLength != 0 { HoldsSlice(m, h.local, Zeros(a.localLength)); }
  }
}
