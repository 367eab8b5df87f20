/** Packing a Lua value for an IPC message, and unpacking it. */
module LuaPack {
  import opened LuaHeap
  import opened GxModel
  import opened LuaPackModel

  /** While packing: where tables went, and their packed form so far. */
  datatype Bag = Bag(store: Store, next: nat, at: Cache)

  /** Tables being filled are `grey`; the others are packed in full. */
  ghost predicate BagOk(src: Heap, b: Bag, grey: set<nat>) {
    && HeapOk(src) && b.at.Keys <= src.Keys && grey <= b.at.Keys && Injective(b.at)
    && (forall id :: id in b.at ==> b.at[id] in b.store)
    && (forall a :: a in b.store ==> a < b.next && Owned(b.at, a))
    && (forall id :: id in b.at && id !in grey ==> IsPacked(b.at, src[id], b.store[b.at[id]]))
  }

  predicate Owned(at: Cache, a: nat) { exists id :: id in at && at[id] == a }

  ghost predicate Grown(b: Bag, b': Bag) {
    Extends(b.at, b'.at) && forall a :: a in b.store ==> a in b'.store && b'.store[a] == b.store[a]
  }

  /** How many tables are not packed yet. */
  ghost function Left(src: Heap, at: Cache): nat { |src.Keys - at.Keys| }

  ghost predicate Filling(src: Heap, b0: Bag, b: Bag, grey: set<nat>, id: nat, p: Packed) {
    && BagOk(src, b, grey + {id}) && Grown(b0, b)
    && id in src && src[id].Table? && id !in b0.at && id !in grey
    && id in b.at && b.at[id] !in b0.store && b.at[id] in b.store && b.store[b.at[id]] == p
  }

  lemma FillingStarts(src: Heap, b: Bag, grey: set<nat>, id: nat, p: Packed)
    requires BagOk(src, b, grey) && id in src && src[id].Table? && id !in b.at
    ensures Filling(src, b, Bag(b.store[b.next := p], b.next + 1, b.at[id := b.next]), grey, id, p)
  {
    hide IsPacked, HeapOk;
    var b' := Bag(b.store[b.next := p], b.next + 1, b.at[id := b.next]);
    forall a | a in b'.store ensures Owned(b'.at, a) {
      if a in b.store {
        var k :| k in b.at && b.at[k] == a;
        assert b'.at[k] == a;
      } else {
        assert b'.at[id] == a;
      }
    }
    forall k | k in b'.at && k !in grey + {id} ensures IsPacked(b'.at, src[k], b'.store[b'.at[k]]) {
      IsPackedStable(b.at, b'.at, src[k], b.store[b.at[k]]);
    }
  }

  lemma FillingGrows(src: Heap, b0: Bag, b: Bag, b': Bag, grey: set<nat>, id: nat, p: Packed)
    requires Filling(src, b0, b, grey, id, p) && BagOk(src, b', grey + {id}) && Grown(b, b')
    ensures Filling(src, b0, b', grey, id, p) && Extends(b.at, b'.at)
    ensures id in b'.at && b'.at[id] == b.at[id] && b'.at[id] in b'.store && b'.store[b'.at[id]] == p
  {
    hide BagOk;
  }

  lemma FillingWrites(src: Heap, b0: Bag, b: Bag, grey: set<nat>, id: nat, p: Packed, p': Packed)
    requires Filling(src, b0, b, grey, id, p)
    ensures Filling(src, b0, b.(store := b.store[b.at[id] := p']), grey, id, p')
  {
    hide IsPacked, HeapOk;
  }

  lemma FillingEnds(src: Heap, b0: Bag, b: Bag, grey: set<nat>, id: nat, p: Packed, order: seq<Value>)
    requires Filling(src, b0, b, grey, id, p)
    requires Ordered(order, src[id].entries.Keys) && Filled(b.at, src[id].entries, order, p, |order|)
    ensures BagOk(src, b, grey) && Grown(b0, b) && id in b.at
  {
    assert IsPacked(b.at, src[id], p);
    hide IsPacked, HeapOk;
  }

  lemma FillingCounts(src: Heap, b0: Bag, b: Bag, grey: set<nat>, id: nat, p: Packed)
    requires Filling(src, b0, b, grey, id, p)
    ensures Left(src, b.at) < Left(src, b0.at) && BagOk(src, b, grey + {id})
  {
    FewerLeft(src.Keys, b0.at.Keys, b.at.Keys, id);
  }

  /** Key and value packed: the entry's fields are written. */
  lemma EntryAdds(at: Cache, m: Cache, at': Cache, e: map<Value, Value>, order: seq<Value>, p: Packed, i: nat)
    requires Extends(at, m) && Extends(m, at') && Filled(at, e, order, p, i) && i < |order| && order[i] in e
    requires Copied(m, e[order[i]]) && Copied(at', order[i])
    ensures Filled(at', e, order, Packed(p.keys[i := FieldOf(at', order[i])], p.values[i := FieldOf(m, e[order[i]])]), i + 1)
  {
    var p' := Packed(p.keys[i := FieldOf(at', order[i])], p.values[i := FieldOf(m, e[order[i]])]);
    FilledStable(at, m, e, order, p, i);
    FilledStable(m, at', e, order, p, i);
    FieldStable(m, at', e[order[i]]);
    forall j | 0 <= j < i + 1 ensures EntryFilled(at', e, order, p', j) {
      assert j < i ==> EntryFilled(at', e, order, p, j);
    }
  }

  lemma PartsOk(src: Heap, id: nat, k: Value)
    requires HeapOk(src) && id in src && src[id].Table? && k in src[id].entries
    ensures RefOk(src, k) && RefOk(src, src[id].entries[k])
    ensures !AllSendable(src, k) || !AllSendable(src, src[id].entries[k]) ==> !AllSendable(src, Obj(id))
  {
    hide AllSendable;
    var v := src[id].entries[k];
    assert ObjectOk(src, src[id]);
    assert v in src[id].entries.Values;
    assert Inside(src, Obj(id), k) && Inside(src, Obj(id), v);
    if AllSendable(src, Obj(id)) {
      SendableInside(src, Obj(id), k);
      SendableInside(src, Obj(id), v);
    }
  }

  class Packer {
    const src: Heap
    var store: Store
    var next: nat
    var at: Cache

    ghost function Now(): Bag
      reads this
    {
      Bag(store, next, at)
    }

    constructor (src: Heap)
      requires HeapOk(src)
      ensures this.src == src && Now() == Bag(map[], 0, map[]) && BagOk(src, Now(), {})
    {
      this.src, store, next := src, map[], 0;
      at := map[];
    }

    /** The keys in the order the table is walked. */
    method Walk(id: nat) returns (order: seq<Value>)
      requires id in src && src[id].Table?
      ensures Ordered(order, src[id].entries.Keys)
    {
      var todo := src[id].entries.Keys;
      order := [];
      while todo != {}
        invariant todo <= src[id].entries.Keys
        invariant Ordered(order, src[id].entries.Keys - todo)
        decreases todo
      {
        var k :| k in todo;
        order := order + [k];
        todo := todo - {k};
      }
      assert src[id].entries.Keys - todo == src[id].entries.Keys;
    }

    /** One field.  It raises an error exactly when something unsendable is reached. */
    method PackField(v: Value, ghost grey: set<nat>) returns (ok: bool, f: Field)
      requires BagOk(src, Now(), grey) && HeapOk(src) && RefOk(src, v)
      modifies this
      ensures ok ==> BagOk(src, Now(), grey) && Grown(old(Now()), Now())
      ensures ok ==> Copied(at, v) && f == FieldOf(at, v)
      ensures !ok ==> !AllSendable(src, v)
      decreases Left(src, at), 2
    {
      hide BagOk, AllSendable, Left;
      ok, f := true, FNil;
      match v {
        case Nil =>
        case Bool(b) => f := FBool(b);
        case Light(p) => f := FLight(p);
        case Int(i) => f := FInt(Truncated(i));
        case Num(r) => f := FNum(r);
        case Str(s) => f := FStr(s);
        case Obj(id) =>
          if src[id].Table? {
            ok, f := PackTable(id, grey);
          } else {
            ok := false;
            NotSendable(src, v);
          }
        case Foreign(_) =>
          ok := false;
          NotSendable(src, v);
      }
    }

    /** A table: laid out for its number of entries, remembered, then filled entry by entry. */
    method PackTable(id: nat, ghost grey: set<nat>) returns (ok: bool, f: Field)
      requires BagOk(src, Now(), grey) && HeapOk(src) && id in src && src[id].Table?
      modifies this
      ensures ok ==> BagOk(src, Now(), grey) && Grown(old(Now()), Now())
      ensures ok ==> id in at && f == FTable(at[id])
      ensures !ok ==> !AllSendable(src, Obj(id))
      decreases Left(src, at), 1
    {
      hide BagOk, HeapOk, AllSendable, Left, Filling, Filled, Ordered, Extends, Grown, Copied, FieldOf;
      if id in at {
        GrownRefl(Now());
        return true, FTable(at[id]);
      }
      ghost var b0 := Now();
      var e := src[id].entries;
      var order := Walk(id);
      var a := next;
      var p := Packed(seq(|order|, _ => FNil), seq(|order|, _ => FNil));
      FillingStarts(src, b0, grey, id, p);
      store, at, next := store[a := p], at[id := a], next + 1;
      NothingFilled(at, e, order, p);
      var i := 0;
      while i < |order|
        invariant 0 <= i <= |order| && id in at && at[id] == a && a in store
        invariant Filling(src, b0, Now(), grey, id, store[a])
        invariant Filled(at, e, order, store[a], i) && |store[a].keys| == |order| == |store[a].values|
      {
        ghost var b1 := Now();
        p := store[a];
        FillingCounts(src, b0, b1, grey, id, p);
        InOrder(order, e.Keys, i);
        PartsOk(src, id, order[i]);
        var v, k;
        ok, v := PackField(e[order[i]], grey + {id});
        if !ok {
          return false, FNil;
        }
        ghost var b2 := Now();
        FillingGrows(src, b0, b1, b2, grey, id, p);
        FillingCounts(src, b0, b2, grey, id, p);
        ok, k := PackField(order[i], grey + {id});
        if !ok {
          return false, FNil;
        }
        FillingGrows(src, b0, b2, Now(), grey, id, p);
        EntryAdds(b1.at, b2.at, at, e, order, p, i);
        var p' := Packed(p.keys[i := k], p.values[i := v]);
        FillingWrites(src, b0, Now(), grey, id, p, p');
        store := store[a := p'];
        i := i + 1;
      }
      FillingEnds(src, b0, Now(), grey, id, store[a], order);
      return true, FTable(a);
    }
  }

  lemma InOrder(order: seq<Value>, keys: set<Value>, i: nat)
    requires Ordered(order, keys) && i < |order|
    ensures order[i] in keys
  {
  }

  lemma NothingFilled(at: Cache, e: map<Value, Value>, order: seq<Value>, p: Packed)
    requires |order| == |p.keys| == |p.values|
    ensures Filled(at, e, order, p, 0)
  {
  }

  lemma NotSendable(src: Heap, v: Value)
    requires !Sendable(src, v)
    ensures !AllSendable(src, v)
  {
    assert Reaches(src, v, v, 0);
  }

  lemma GrownRefl(b: Bag)
    ensures Grown(b, b)
  {
  }
}
