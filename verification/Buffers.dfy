// Who owns the buffers SQLite hands out: a `SqliteMemory` value until it is dropped, or the
// connection it was deserialized into until that connection closes or loads another one.
module Buffers {
  import opened RaftTypes

  // `held` are the pointers inside live `SqliteMemory` values, `attached` maps a connection to
  // the buffer its main database lives in, `freed` lists every free in order.
  datatype Heap = Heap(
    next: nat,
    live: map<nat, seq<Byte>>,
    held: set<nat>,
    attached: map<nat, nat>,
    freed: seq<nat>)

  // What `sqlite3_serialize` can answer: no pointer, a pointer with its size, or a pointer whose
  // size is -1.
  datatype Serialized = NoPointer | Sized(bytes: seq<Byte>) | Unsized

  datatype Op =
    | FromSlice(buf: seq<Byte>, memoryLeft: bool)
    | SerializeDb(answer: Serialized)
    | Drop(ptr: nat)
    | DeserializeDb(conn: nat, ptr: nat, accepted: bool)
    | Close(conn: nat)

  function Alloc(h: Heap, bytes: seq<Byte>): Heap {
    h.(next := h.next + 1, live := h.live[h.next := bytes])
  }

  function Free(h: Heap, ptr: nat): Heap {
    h.(live := h.live - {ptr}, freed := h.freed + [ptr])
  }

  // A connection lets go of its buffer: SQLITE_DESERIALIZE_FREEONCLOSE makes SQLite free it.
  function Release(h: Heap, conn: nat): Heap {
    if conn in h.attached then Free(h, h.attached[conn]).(attached := h.attached - {conn}) else h
  }

  // What Rust's ownership lets a caller do: drop or hand over only a value it holds.
  predicate Allowed(op: Op, h: Heap) {
    match op
    case Drop(ptr) => ptr in h.held
    case DeserializeDb(_, ptr, _) => ptr in h.held
    case _ => true
  }

  // `sqlite3_malloc64` returns no memory for size 0. A refused buffer is freed by SQLite, which
  // is what FREEONCLOSE promises, and the caller has given it up already.
  function Apply(op: Op, h: Heap): Heap
    requires Allowed(op, h)
  {
    match op
    case FromSlice(buf, memoryLeft) =>
      if buf == [] || !memoryLeft then h else Alloc(h, buf).(held := h.held + {h.next})
    case SerializeDb(answer) =>
      (match answer
       case NoPointer => h
       case Sized(bytes) => Alloc(h, bytes).(held := h.held + {h.next})
       case Unsized => Free(Alloc(h, []), h.next))
    case Drop(ptr) => Free(h, ptr).(held := h.held - {ptr})
    case DeserializeDb(conn, ptr, accepted) =>
      if accepted then
        var released := Release(h, conn);
        released.(held := released.held - {ptr}, attached := released.attached[conn := ptr])
      else Free(h, ptr).(held := h.held - {ptr})
    case Close(conn) => Release(h, conn)
  }

  ghost predicate Attached(h: Heap, p: nat) {
    exists c :: c in h.attached && h.attached[c] == p
  }

  // Every buffer ever allocated is live with exactly one owner, or has been freed exactly once.
  ghost predicate Inv(h: Heap) {
    && (forall p :: p in h.live <==> p in h.held || Attached(h, p))
    && (forall c :: c in h.attached ==> h.attached[c] !in h.held)
    && (forall c, d :: c in h.attached && d in h.attached && c != d ==> h.attached[c] != h.attached[d])
    && (forall i, j :: 0 <= i < j < |h.freed| ==> h.freed[i] != h.freed[j])
    && (forall p :: p in h.live ==> p !in h.freed)
    && (forall p: nat :: p < h.next <==> p in h.live || p in h.freed)
  }

  lemma FreeKeeps(h: Heap, ptr: nat)
    requires Inv(h) && ptr in h.live
    ensures var h' := Free(h, ptr);
      && (forall i, j :: 0 <= i < j < |h'.freed| ==> h'.freed[i] != h'.freed[j])
      && (forall p :: p in h'.live ==> p !in h'.freed)
      && (forall p: nat :: p < h'.next <==> p in h'.live || p in h'.freed)
  {
    assert forall p :: p in h.freed + [ptr] <==> p in h.freed || p == ptr;
  }

  lemma ReleaseKeepsInv(h: Heap, conn: nat)
    requires Inv(h)
    ensures Inv(Release(h, conn)) && conn !in Release(h, conn).attached && Release(h, conn).held == h.held
  {
    if conn in h.attached {
      var h', ptr := Release(h, conn), h.attached[conn];
      assert Attached(h, ptr);
      FreeKeeps(h, ptr);
      forall p ensures Attached(h', p) <==> Attached(h, p) && p != ptr {
        if Attached(h, p) && p != ptr {
          var c :| c in h.attached && h.attached[c] == p;
          assert c in h'.attached && h'.attached[c] == p;
        }
      }
    }
  }

  lemma AttachedAfter(h: Heap, conn: nat, ptr: nat, p: nat)
    requires conn !in h.attached
    ensures Attached(h.(held := h.held - {ptr}, attached := h.attached[conn := ptr]), p)
      <==> Attached(h, p) || p == ptr
  {
    var h' := h.(held := h.held - {ptr}, attached := h.attached[conn := ptr]);
    if p == ptr { assert h'.attached[conn] == p; }
    if Attached(h, p) {
      var c :| c in h.attached && h.attached[c] == p;
      assert c in h'.attached && h'.attached[c] == p;
    }
  }

  lemma AttachKeepsInv(h: Heap, conn: nat, ptr: nat)
    requires Inv(h) && ptr in h.held && conn !in h.attached
    ensures Inv(h.(held := h.held - {ptr}, attached := h.attached[conn := ptr]))
  {
    var h' := h.(held := h.held - {ptr}, attached := h.attached[conn := ptr]);
    forall p: nat ensures Attached(h', p) <==> Attached(h, p) || p == ptr { AttachedAfter(h, conn, ptr, p); }
    hide Attached;
  }

  lemma DropKeepsInv(h: Heap, ptr: nat)
    requires Inv(h) && ptr in h.held
    ensures Inv(Free(h, ptr).(held := h.held - {ptr}))
  {
    FreeKeeps(h, ptr);
    var h' := Free(h, ptr).(held := h.held - {ptr});
    assert forall p :: Attached(h', p) <==> Attached(h, p);
  }

  lemma AllocKeepsInv(h: Heap, bytes: seq<Byte>)
    requires Inv(h)
    ensures Inv(Alloc(h, bytes).(held := h.held + {h.next}))
  {
    var h' := Alloc(h, bytes).(held := h.held + {h.next});
    assert forall p :: Attached(h', p) <==> Attached(h, p);
    assert forall c :: c in h.attached ==> Attached(h, h.attached[c]);
  }

  lemma ApplyKeepsInv(op: Op, h: Heap)
    requires Inv(h) && Allowed(op, h)
    ensures Inv(Apply(op, h))
  {
    hide Inv, Attached;
    match op
    case FromSlice(buf, memoryLeft) => AllocKeepsInv(h, buf);
    case SerializeDb(answer) =>
      if answer.Sized? {
        AllocKeepsInv(h, answer.bytes);
      } else if answer.Unsized? {
        AllocKeepsInv(h, []);
        var h' := Alloc(h, []).(held := h.held + {h.next});
        DropKeepsInv(h', h.next);
        HeldBelowNext(h);
        assert Free(h', h.next).(held := h'.held - {h.next}) == Apply(op, h);
      }
    case Drop(ptr) => DropKeepsInv(h, ptr);
    case DeserializeDb(conn, ptr, accepted) =>
      if accepted {
        ReleaseKeepsInv(h, conn);
        AttachKeepsInv(Release(h, conn), conn, ptr);
      } else {
        DropKeepsInv(h, ptr);
      }
    case Close(conn) => ReleaseKeepsInv(h, conn);
  }

  lemma HeldBelowNext(h: Heap)
    requires Inv(h)
    ensures h.next !in h.held && h.next !in h.live
  {
  }

  function RunOps(ops: seq<Op>, h: Heap): Heap {
    if ops == [] then h
    else RunOps(ops[1..], if Allowed(ops[0], h) then Apply(ops[0], h) else h)
  }

  lemma {:induction false} RunKeepsInv(ops: seq<Op>, h: Heap)
    requires Inv(h)
    ensures Inv(RunOps(ops, h))
    decreases |ops|
  {
    hide Inv, Apply, Allowed;
    if ops != [] {
      if Allowed(ops[0], h) {
        ApplyKeepsInv(ops[0], h);
        RunKeepsInv(ops[1..], Apply(ops[0], h));
      } else {
        RunKeepsInv(ops[1..], h);
      }
    }
  }

  const EMPTY_HEAP := Heap(0, map[], {}, map[], [])

  // Over every run, nothing is freed twice, nothing freed is still owned, and once no value is
  // held and every connection has let go, each buffer ever allocated has been freed once.
  lemma NoLeakNoDoubleFree(ops: seq<Op>, p: nat)
    ensures var h := RunOps(ops, EMPTY_HEAP);
      && (forall i, j :: 0 <= i < j < |h.freed| ==> h.freed[i] != h.freed[j])
      && (p in h.held || Attached(h, p) ==> p in h.live && p !in h.freed)
      && (h.held == {} && h.attached == map[] ==> (p < h.next <==> p in h.freed))
  {
    RunKeepsInv(ops, EMPTY_HEAP);
  }

  // Every buffer but `p` is live or not as before, with the same bytes.
  ghost predicate OthersKept(p: nat, h: Heap, h': Heap) {
    forall q :: q != p ==> (q in h'.live <==> q in h.live) && (q in h.live ==> h'.live[q] == h.live[q])
  }

  // A new buffer holds the bytes, and nothing else changed hands.
  ghost predicate Gained(p: nat, bytes: seq<Byte>, h: Heap, h': Heap) {
    && p !in h.live && p !in h.freed && p in h'.live && h'.live[p] == bytes
    && OthersKept(p, h, h')
    && h'.held == h.held + {p} && h'.attached == h.attached && h'.freed == h.freed
  }

  // That buffer is gone, freed once, and nothing else changed hands.
  ghost predicate Gone(p: nat, h: Heap, h': Heap) {
    && p in h.live && p !in h.freed && p !in h'.live && h'.freed == h.freed + [p]
    && OthersKept(p, h, h')
    && h'.held == h.held - {p} && h'.attached == h.attached
  }

  // What each operation does to each buffer.
  lemma ApplyMeans(op: Op, h: Heap)
    requires Inv(h) && Allowed(op, h)
    ensures var h' := Apply(op, h);
      match op
      case FromSlice(buf, memoryLeft) =>
        if buf != [] && memoryLeft then Gained(h.next, buf, h, h') else h' == h
      case SerializeDb(Sized(bytes)) => Gained(h.next, bytes, h, h')
      case SerializeDb(NoPointer) => h' == h
      case SerializeDb(Unsized) =>
        h'.live == h.live && h'.held == h.held && h'.attached == h.attached && h'.freed == h.freed + [h.next]
      case Drop(ptr) => Gone(ptr, h, h')
      case DeserializeDb(conn, ptr, accepted) => if accepted then Loaded(conn, ptr, h, h') else Gone(ptr, h, h')
      case Close(conn) => Closed(conn, h, h')
  {
    HeldBelowNext(h);
    assert forall c :: c in h.attached ==> Attached(h, h.attached[c]);
    if op.SerializeDb? && op.answer.Unsized? { assert Apply(op, h).live == h.live; }
  }

  // The connection has the buffer, whatever it had before is freed, and no other connection is touched.
  ghost predicate Loaded(conn: nat, ptr: nat, h: Heap, h': Heap)
    requires ptr in h.live
  {
    && ptr in h'.live && h'.live[ptr] == h.live[ptr]
    && h'.held == h.held - {ptr} && h'.attached == h.attached[conn := ptr]
    && if conn in h.attached then
         h'.freed == h.freed + [h.attached[conn]] && h.attached[conn] !in h'.live && OthersKept(h.attached[conn], h, h')
       else h'.freed == h.freed && h'.live == h.live
  }

  // Whatever the connection had is freed, and no other connection is touched.
  ghost predicate Closed(conn: nat, h: Heap, h': Heap) {
    && h'.held == h.held && h'.attached == h.attached - {conn}
    && if conn in h.attached then
         h'.freed == h.freed + [h.attached[conn]] && h.attached[conn] !in h'.live && OthersKept(h.attached[conn], h, h')
       else h'.freed == h.freed && h'.live == h.live
  }

  // The C heap as the methods of storage/mod.rs change it.
  class SqliteHeap {
    var heap: Heap

    constructor ()
      ensures heap == EMPTY_HEAP
    {
      heap := EMPTY_HEAP;
    }

    method FromSlice(buf: seq<Byte>, memoryLeft: bool) returns (ptr: Option<nat>)
      requires Inv(heap)
      modifies this
      ensures Inv(heap) && heap == Apply(Op.FromSlice(buf, memoryLeft), old(heap))
      ensures ptr.Some? <==> buf != [] && memoryLeft
      ensures ptr.Some? ==> Gained(ptr.value, buf, old(heap), heap)
      ensures ptr.None? ==> heap == old(heap)
    {
      ApplyKeepsInv(Op.FromSlice(buf, memoryLeft), heap);
      ApplyMeans(Op.FromSlice(buf, memoryLeft), heap);
      if buf == [] || !memoryLeft {
        return None;
      }
      ptr := Some(heap.next);
      heap := Heap(heap.next + 1, heap.live[heap.next := buf], heap.held + {heap.next}, heap.attached, heap.freed);
    }

    method DropMemory(ptr: nat)
      requires Inv(heap) && ptr in heap.held
      modifies this
      ensures Inv(heap) && heap == Apply(Drop(ptr), old(heap))
      ensures Gone(ptr, old(heap), heap)
    {
      ApplyKeepsInv(Drop(ptr), heap);
      ApplyMeans(Drop(ptr), heap);
      heap := heap.(live := heap.live - {ptr}, freed := heap.freed + [ptr], held := heap.held - {ptr});
    }

    method Serialize(answer: Serialized) returns (ptr: Option<nat>)
      requires Inv(heap)
      modifies this
      ensures Inv(heap) && heap == Apply(SerializeDb(answer), old(heap))
      ensures ptr.Some? <==> answer.Sized?
      ensures ptr.Some? ==> Gained(ptr.value, answer.bytes, old(heap), heap)
      ensures ptr.None? ==>
        heap.live == old(heap).live && heap.held == old(heap).held && heap.attached == old(heap).attached
      ensures answer.NoPointer? ==> heap == old(heap)
    {
      ApplyKeepsInv(SerializeDb(answer), heap);
      ApplyMeans(SerializeDb(answer), heap);
      match answer
      case NoPointer => ptr := None;
      case Unsized =>
        ptr := None;
        heap := Free(Alloc(heap, []), heap.next);
      case Sized(bytes) =>
        ptr := Some(heap.next);
        heap := Alloc(heap, bytes).(held := heap.held + {heap.next});
    }

    method Deserialize(conn: nat, ptr: nat, accepted: bool) returns (ok: bool)
      requires Inv(heap) && ptr in heap.held
      modifies this
      ensures Inv(heap) && heap == Apply(DeserializeDb(conn, ptr, accepted), old(heap)) && ok == accepted
      ensures ok ==> Loaded(conn, ptr, old(heap), heap)
      ensures !ok ==> Gone(ptr, old(heap), heap)
    {
      ApplyKeepsInv(DeserializeDb(conn, ptr, accepted), heap);
      ApplyMeans(DeserializeDb(conn, ptr, accepted), heap);
      heap := Apply(DeserializeDb(conn, ptr, accepted), heap);
      ok := accepted;
    }

    // Closing a connection.
    method CloseConnection(conn: nat)
      requires Inv(heap)
      modifies this
      ensures Inv(heap) && heap == Apply(Close(conn), old(heap))
      ensures Closed(conn, old(heap), heap)
    {
      ApplyKeepsInv(Close(conn), heap);
      ApplyMeans(Close(conn), heap);
      heap := Release(heap, conn);
    }

    // `create_memory_view`: a new connection on a copy of the database. It holds the bytes that
    // were serialized, or nothing is left behind; no other buffer and no other connection is touched.
    method CreateMemoryView(view: nat, answer: Serialized, accepted: bool) returns (ok: bool)
      requires Inv(heap) && view !in heap.attached
      modifies this
      ensures Inv(heap)
      ensures ok <==> answer.Sized? && accepted
      ensures ok ==>
        && view in heap.attached && heap.attached == old(heap).attached[view := heap.attached[view]]
        && heap.attached[view] in heap.live && heap.live[heap.attached[view]] == answer.bytes
        && OthersKept(heap.attached[view], old(heap), heap)
        && heap.held == old(heap).held && heap.freed == old(heap).freed
      ensures !ok ==> heap.live == old(heap).live && heap.held == old(heap).held && heap.attached == old(heap).attached
    {
      HeldBelowNext(heap);
      var data := Serialize(answer);
      if data.None? {
        return false;
      }
      hide Inv;
      ok := Deserialize(view, data.value, accepted);
      if !ok {
        assert heap.live == old(heap).live && heap.held == old(heap).held;
      }
    }
  }
}
