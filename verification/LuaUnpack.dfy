/** Unpacking a Lua value from an IPC message. */
module LuaUnpack {
  import opened Options
  import opened LuaHeap
  import opened GxModel
  import opened LuaPackModel

  /** Tables mentioned are there, and every key has its value. */
  ghost predicate StoreOk(store: Store) {
    forall a :: a in store ==> PackedOk(store, store[a])
  }

  ghost predicate PackedOk(store: Store, p: Packed) {
    && |p.keys| == |p.values|
    && forall i :: 0 <= i < |p.keys| ==> AddrOk(store, p.keys[i]) && AddrOk(store, p.values[i])
  }

  predicate AddrOk(store: Store, f: Field) { f.FTable? ==> f.addr in store }

  /** While unpacking: the heap, and which tables were made for which addresses. */
  datatype Desk = Desk(heap: Heap, next: nat, made: Cache)

  ghost predicate DeskOk(store: Store, base: Heap, d: Desk, grey: set<nat>) {
    && StoreOk(store) && d.made.Keys <= store.Keys && grey <= d.made.Keys && Injective(d.made)
    && (forall id :: id in d.heap ==> id < d.next)
    && (forall id :: id in base ==> id in d.heap && d.heap[id] == base[id])
    && (forall a :: a in d.made ==> d.made[a] in d.heap && d.made[a] !in base)
    && (forall a :: a in d.made && a !in grey ==> IsUnpacked(d.made, store[a], d.heap[d.made[a]]))
  }

  ghost predicate Grown(d: Desk, d': Desk) {
    Extends(d.made, d'.made) && forall id :: id in d.heap ==> id in d'.heap && d'.heap[id] == d.heap[id]
  }

  ghost function Left(store: Store, made: Cache): nat { |store.Keys - made.Keys| }

  ghost predicate Filling(store: Store, base: Heap, d0: Desk, d: Desk, grey: set<nat>, a: nat, o: Object) {
    && DeskOk(store, base, d, grey + {a}) && Grown(d0, d)
    && a in store && a !in d0.made && a !in grey
    && a in d.made && d.made[a] !in d0.heap && d.made[a] in d.heap && d.heap[d.made[a]] == o
  }

  lemma FillingStarts(store: Store, base: Heap, d: Desk, grey: set<nat>, a: nat, o: Object)
    requires DeskOk(store, base, d, grey) && a in store && a !in d.made
    ensures Filling(store, base, d, Desk(d.heap[d.next := o], d.next + 1, d.made[a := d.next]), grey, a, o)
  {
    hide IsUnpacked, StoreOk;
    var d' := Desk(d.heap[d.next := o], d.next + 1, d.made[a := d.next]);
    forall k | k in d'.made && k !in grey + {a} ensures IsUnpacked(d'.made, store[k], d'.heap[d'.made[k]]) {
      UnpackedStable(d.made, d'.made, store[k], d.heap[d.made[k]]);
    }
  }

  lemma UnpackedStable(made: Cache, made': Cache, p: Packed, o: Object)
    requires Extends(made, made') && IsUnpacked(made, p, o)
    ensures IsUnpacked(made', p, o)
  {
    BuiltStable(made, made', p, |p.keys|);
  }

  lemma FillingGrows(store: Store, base: Heap, d0: Desk, d: Desk, d': Desk, grey: set<nat>, a: nat, o: Object)
    requires Filling(store, base, d0, d, grey, a, o) && DeskOk(store, base, d', grey + {a}) && Grown(d, d')
    ensures Filling(store, base, d0, d', grey, a, o) && Extends(d.made, d'.made)
    ensures a in d'.made && d'.made[a] == d.made[a] && d'.made[a] in d'.heap && d'.heap[d'.made[a]] == o
  {
    hide DeskOk;
  }

  lemma FillingWrites(store: Store, base: Heap, d0: Desk, d: Desk, grey: set<nat>, a: nat, o: Object, o': Object)
    requires Filling(store, base, d0, d, grey, a, o)
    ensures Filling(store, base, d0, d.(heap := d.heap[d.made[a] := o']), grey, a, o')
  {
    hide IsUnpacked, StoreOk;
  }

  lemma FillingEnds(store: Store, base: Heap, d0: Desk, d: Desk, grey: set<nat>, a: nat, o: Object)
    requires Filling(store, base, d0, d, grey, a, o) && IsUnpacked(d.made, store[a], o)
    ensures DeskOk(store, base, d, grey) && Grown(d0, d) && a in d.made
  {
    hide IsUnpacked, StoreOk;
  }

  lemma FillingCounts(store: Store, base: Heap, d0: Desk, d: Desk, grey: set<nat>, a: nat, o: Object, i: nat)
    requires Filling(store, base, d0, d, grey, a, o) && i < |store[a].keys|
    ensures Left(store, d.made) < Left(store, d0.made) && DeskOk(store, base, d, grey + {a})
    ensures i < |store[a].values| && AddrOk(store, store[a].keys[i]) && AddrOk(store, store[a].values[i])
  {
    FewerLeft(store.Keys, d0.made.Keys, d.made.Keys, a);
    assert PackedOk(store, store[a]);
  }

  /** One more entry made. */
  lemma EntryMade(made: Cache, m: Cache, made': Cache, p: Packed, i: nat)
    requires Extends(made, m) && Extends(m, made') && Made(made, p, i) && i < |p.keys| && i < |p.values|
    requires FieldMade(m, p.keys[i]) && FieldMade(made', p.values[i])
    ensures Made(made', p, i + 1)
    ensures Built(made', p, i + 1) == Built(made, p, i)[ValueOf(m, p.keys[i]) := ValueOf(made', p.values[i])]
  {
    BuiltStable(made, m, p, i);
    BuiltStable(m, made', p, i);
  }

  lemma GrownRefl(d: Desk)
    ensures Grown(d, d)
  {
  }

  class Unpacker {
    const store: Store
    ghost const base: Heap
    var heap: Heap
    var next: nat
    var made: Cache

    ghost function Now(): Desk
      reads this
    {
      Desk(heap, next, made)
    }

    constructor (store: Store, heap: Heap, next: nat)
      requires StoreOk(store) && forall id :: id in heap ==> id < next
      ensures this.store == store && this.base == heap && Now() == Desk(heap, next, map[]) && DeskOk(store, base, Now(), {})
    {
      this.store, this.heap, this.next, this.base := store, heap, next, heap;
      made := map[];
    }

    method UnpackField(f: Field, ghost grey: set<nat>) returns (v: Value)
      requires DeskOk(store, base, Now(), grey) && AddrOk(store, f)
      modifies this
      ensures DeskOk(store, base, Now(), grey) && Grown(old(Now()), Now())
      ensures FieldMade(made, f) && v == ValueOf(made, f)
      decreases Left(store, made), 2
    {
      hide DeskOk, Left;
      match f {
        case FNil => v := Nil;
        case FBool(b) => v := Bool(b);
        case FLight(p) => v := Light(p);
        case FInt(i) => v := Int(i);
        case FNum(r) => v := Num(r);
        case FStr(s) => v := Str(s);
        case FTable(a) => v := UnpackTable(a, grey);
      }
    }

    /** A table: made empty and remembered, then set entry by entry. */
    method UnpackTable(a: nat, ghost grey: set<nat>) returns (v: Value)
      requires DeskOk(store, base, Now(), grey) && a in store
      modifies this
      ensures DeskOk(store, base, Now(), grey) && Grown(old(Now()), Now())
      ensures a in made && v == Obj(made[a])
      decreases Left(store, made), 1
    {
      hide DeskOk, StoreOk, Left, Filling, Extends, Grown, Made, FieldMade, IsUnpacked, ValueOf, Built, AddrOk;
      if a in made {
        GrownRefl(Now());
        return Obj(made[a]);
      }
      ghost var d0 := Now();
      var p := store[a];
      var id := next;
      FillingStarts(store, base, d0, grey, a, Table(map[], None));
      heap, made, next := heap[id := Table(map[], None)], made[a := id], next + 1;
      SizesOk(store, base, d0, Now(), grey, a, Table(map[], None));
      NothingMade(made, p);
      var i := 0;
      while i < |p.keys|
        invariant 0 <= i <= |p.keys| == |p.values| && a in made && made[a] == id && id in heap
        invariant Filling(store, base, d0, Now(), grey, a, heap[id])
        invariant Made(made, p, i) && heap[id] == Table(Built(made, p, i), None)
      {
        ghost var d1 := Now();
        var o := heap[id];
        FillingCounts(store, base, d0, d1, grey, a, o, i);
        var k := UnpackField(p.keys[i], grey + {a});
        ghost var d2 := Now();
        FillingGrows(store, base, d0, d1, d2, grey, a, o);
        FillingCounts(store, base, d0, d2, grey, a, o, i);
        var w := UnpackField(p.values[i], grey + {a});
        FillingGrows(store, base, d0, d2, Now(), grey, a, o);
        EntryMade(d1.made, d2.made, made, p, i);
        var o' := Table(o.entries[k := w], None);
        FillingWrites(store, base, d0, Now(), grey, a, o, o');
        heap := heap[id := o'];
        i := i + 1;
      }
      AllMade(made, p, heap[id]);
      FillingEnds(store, base, d0, Now(), grey, a, heap[id]);
      return Obj(id);
    }
  }

  lemma NothingMade(made: Cache, p: Packed)
    ensures Made(made, p, 0) && Built(made, p, 0) == map[]
  {
  }

  lemma AllMade(made: Cache, p: Packed, o: Object)
    requires |p.keys| == |p.values| && Made(made, p, |p.keys|) && o == Table(Built(made, p, |p.keys|), None)
    ensures IsUnpacked(made, p, o)
  {
  }

  lemma SizesOk(store: Store, base: Heap, d0: Desk, d: Desk, grey: set<nat>, a: nat, o: Object)
    requires Filling(store, base, d0, d, grey, a, o)
    ensures |store[a].keys| == |store[a].values|
  {
    assert PackedOk(store, store[a]);
  }
}
