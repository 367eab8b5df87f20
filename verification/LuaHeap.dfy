/** Lua values and the objects they refer to, for one Lua state. */
module LuaHeap {
  import opened Options

  /** Objects are referred to by number.  A Foreign value is a coroutine, or userdata that
      offers no way to copy it. */
  datatype Value =
    | Nil
    | Bool(b: bool)
    | Int(i: int)
    | Num(r: real)
    | Str(s: string)
    | Light(ptr: nat)
    | Obj(id: nat)
    | Foreign(what: nat)

  /** A table with its metatable, or a function with its upvalues. */
  datatype Object =
    | Table(entries: map<Value, Value>, meta: Option<nat>)
    | Func(proto: nat, upvalues: seq<Value>)

  type Heap = map<nat, Object>

  predicate RefOk(heap: Heap, v: Value) { v.Obj? ==> v.id in heap }

  /** References stay inside the heap; tables hold no nil; metatables are tables. */
  predicate ObjectOk(heap: Heap, o: Object) {
    match o
    case Table(entries, meta) =>
      && (forall k :: k in entries ==> RefOk(heap, k) && RefOk(heap, entries[k]) && k != Nil && entries[k] != Nil)
      && (meta.Some? ==> meta.value in heap && heap[meta.value].Table?)
    case Func(_, upvalues) =>
      forall i :: 0 <= i < |upvalues| ==> RefOk(heap, upvalues[i])
  }

  predicate HeapOk(heap: Heap) {
    forall id :: id in heap ==> ObjectOk(heap, heap[id])
  }

  /** Does the object hold the value: as a key, a value, its metatable or an upvalue? */
  predicate Holds(o: Object, v: Value) {
    match o
    case Table(entries, meta) =>
      v in entries.Keys || v in entries.Values || (v.Obj? && meta == Some(v.id))
    case Func(_, upvalues) => v in upvalues
  }
}
