/** Packed Lua data: what a packed field, and a packed table, stand for. */
module LuaPackModel {
  import opened Options
  import opened LuaHeap
  import opened GxModel

  const TWO31 := 0x8000_0000
  const TWO32 := 0x1_0000_0000

  /** An integer stored in a field of C type int. */
  function Truncated(i: int): int { (i + TWO31) % TWO32 - TWO31 }

  predicate FitsInt(i: int) { -TWO31 <= i < TWO31 }

  datatype Field =
    | FNil
    | FBool(b: bool)
    | FInt(i: int)
    | FNum(r: real)
    | FStr(s: string)
    | FLight(ptr: nat)
    | FTable(addr: nat)

  /** Keys and values, in the order the table was walked. */
  datatype Packed = Packed(keys: seq<Field>, values: seq<Field>)

  type Store = map<nat, Packed>

  /** What can be packed: no functions, coroutines or full userdata. */
  predicate Sendable(src: Heap, v: Value) {
    !v.Foreign? && (v.Obj? ==> v.id in src && src[v.id].Table?)
  }

  /** Does the table have the value as a key or a value?  Metatables are not sent. */
  predicate Has(o: Object, v: Value) {
    o.Table? && (v in o.entries.Keys || v in o.entries.Values)
  }

  predicate Inside(heap: Heap, v: Value, w: Value) {
    v.Obj? && v.id in heap && Has(heap[v.id], w)
  }

  ghost predicate Reaches(heap: Heap, v: Value, w: Value, n: nat)
    decreases n
  {
    if n == 0 then v == w else exists u :: Inside(heap, v, u) && Reaches(heap, u, w, n - 1)
  }

  ghost predicate AllSendable(src: Heap, v: Value) {
    forall w: Value, n: nat :: Reaches(src, v, w, n) ==> Sendable(src, w)
  }

  lemma SendableInside(src: Heap, v: Value, u: Value)
    requires AllSendable(src, v) && Inside(src, v, u)
    ensures AllSendable(src, u)
  {
    forall w: Value, n: nat | Reaches(src, u, w, n) ensures Sendable(src, w) {
      assert Reaches(src, v, w, n + 1);
    }
  }

  /** The field written for a value whose table, if it is one, was packed at its address. */
  function FieldOf(at: Cache, v: Value): Field {
    match v
    case Nil => FNil
    case Bool(b) => FBool(b)
    case Int(i) => FInt(Truncated(i))
    case Num(r) => FNum(r)
    case Str(s) => FStr(s)
    case Light(p) => FLight(p)
    case Obj(id) => if id in at then FTable(at[id]) else FNil
    case Foreign(_) => FNil
  }

  /** The value a field is unpacked to. */
  function ValueOf(made: Cache, f: Field): Value {
    match f
    case FNil => Nil
    case FBool(b) => Bool(b)
    case FInt(i) => Int(i)
    case FNum(r) => Num(r)
    case FStr(s) => Str(s)
    case FLight(p) => Light(p)
    case FTable(a) => if a in made then Obj(made[a]) else Nil
  }

  /** The keys in some order, each once. */
  ghost predicate Ordered(order: seq<Value>, keys: set<Value>) {
    && (forall i :: 0 <= i < |order| ==> order[i] in keys)
    && (forall k :: k in keys ==> k in order)
    && (forall i, j :: 0 <= i < j < |order| ==> order[i] != order[j])
  }

  /** The first n entries have their fields. */
  ghost predicate Filled(at: Cache, e: map<Value, Value>, order: seq<Value>, p: Packed, n: nat) {
    && n <= |order| == |p.keys| == |p.values|
    && forall i :: 0 <= i < n ==> EntryFilled(at, e, order, p, i)
  }

  predicate EntryFilled(at: Cache, e: map<Value, Value>, order: seq<Value>, p: Packed, i: nat)
    requires i < |order| == |p.keys| == |p.values|
  {
    && order[i] in e && Copied(at, order[i]) && Copied(at, e[order[i]])
    && p.keys[i] == FieldOf(at, order[i]) && p.values[i] == FieldOf(at, e[order[i]])
  }

  /** The packed form of a table. */
  ghost predicate IsPacked(at: Cache, o: Object, p: Packed) {
    o.Table? && exists order :: Ordered(order, o.entries.Keys) && Filled(at, o.entries, order, p, |order|)
  }

  lemma FieldStable(at: Cache, at': Cache, v: Value)
    requires Extends(at, at') && Copied(at, v)
    ensures Copied(at', v) && FieldOf(at', v) == FieldOf(at, v)
  {
  }

  lemma FilledStable(at: Cache, at': Cache, e: map<Value, Value>, order: seq<Value>, p: Packed, n: nat)
    requires Extends(at, at') && Filled(at, e, order, p, n)
    ensures Filled(at', e, order, p, n)
  {
    forall i | 0 <= i < n ensures EntryFilled(at', e, order, p, i) {
      assert EntryFilled(at, e, order, p, i);
      FieldStable(at, at', order[i]);
      FieldStable(at, at', e[order[i]]);
    }
  }

  lemma IsPackedStable(at: Cache, at': Cache, o: Object, p: Packed)
    requires Extends(at, at') && IsPacked(at, o, p)
    ensures IsPacked(at', o, p)
  {
    var order :| Ordered(order, o.entries.Keys) && Filled(at, o.entries, order, p, |order|);
    FilledStable(at, at', o.entries, order, p, |order|);
  }

  /** The table built from the first n packed entries. */
  function Built(made: Cache, p: Packed, n: nat): map<Value, Value>
    requires n <= |p.keys| && n <= |p.values|
  {
    if n == 0 then map[]
    else Built(made, p, n - 1)[ValueOf(made, p.keys[n - 1]) := ValueOf(made, p.values[n - 1])]
  }

  predicate FieldMade(made: Cache, f: Field) { f.FTable? ==> f.addr in made }

  /** All tables the first n packed entries mention are made. */
  ghost predicate Made(made: Cache, p: Packed, n: nat) {
    && n <= |p.keys| && n <= |p.values|
    && forall i :: 0 <= i < n ==> FieldMade(made, p.keys[i]) && FieldMade(made, p.values[i])
  }

  ghost predicate IsUnpacked(made: Cache, p: Packed, o: Object) {
    && |p.keys| == |p.values| && Made(made, p, |p.keys|)
    && o == Table(Built(made, p, |p.keys|), None)
  }

  lemma {:induction false} BuiltStable(made: Cache, made': Cache, p: Packed, n: nat)
    requires Extends(made, made') && Made(made, p, n)
    ensures Made(made', p, n) && Built(made', p, n) == Built(made, p, n)
  {
    if n > 0 {
      BuiltStable(made, made', p, n - 1);
      assert FieldMade(made, p.keys[n - 1]) && FieldMade(made, p.values[n - 1]);
    }
  }
}
