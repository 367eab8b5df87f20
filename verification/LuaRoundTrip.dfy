/** Packing and then unpacking gives back the same graph, exactly when its integers fit. */
module LuaRoundTrip {
  import opened Options
  import opened LuaHeap
  import opened GxModel
  import opened LuaPackModel
  import LuaPack
  import LuaUnpack

  /** The receiver's table for each packed table of the sender. */
  function Via(at: Cache, made: Cache): Cache {
    map id | id in at && at[id] in made :: made[at[id]]
  }

  predicate Fits(v: Value) { v.Int? ==> FitsInt(v.i) }

  ghost predicate AllFit(src: Heap, v: Value) {
    forall w: Value, n: nat :: Reaches(src, v, w, n) ==> Fits(w)
  }

  /** o' has the images of the entries of o, and no metatable. */
  ghost predicate SameEntries(cache: Cache, o: Object, o': Object) {
    o.Table? && o'.Table? && o'.meta.None? && EntriesImage(cache, o.entries, o.entries.Keys, o'.entries)
  }

  /** The graph reached from v' mirrors the one reached from v, under one injective renaming
      of tables: shared tables stay shared, cycles stay cycles, distinct tables distinct. */
  ghost predicate SameGraph(cache: Cache, src: Heap, v: Value, heap: Heap, v': Value) {
    && Injective(cache) && Copied(cache, v) && v' == Image(cache, v)
    && forall w: Value, n: nat :: Reaches(src, v, w, n) ==> Mirrored(cache, src, heap, w)
  }

  ghost predicate Mirrored(cache: Cache, src: Heap, heap: Heap, w: Value) {
    && Copied(cache, w)
    && (w.Obj? ==> w.id in src && cache[w.id] in heap && SameEntries(cache, src[w.id], heap[cache[w.id]]))
  }

  lemma TruncatedIff(i: int)
    ensures Truncated(i) == i <==> FitsInt(i)
    ensures FitsInt(Truncated(i)) && (Truncated(i) - i) % 0x1_0000_0000 == 0
  {
    var q := (i + TWO31) / TWO32;
    assert Truncated(i) - i == -q * TWO32;
  }

  /** Packing and unpacking a value that fits gives its image. */
  lemma ValueOfFieldOf(at: Cache, made: Cache, v: Value)
    requires Copied(at, v) && FieldMade(made, FieldOf(at, v)) && Fits(v)
    ensures Copied(Via(at, made), v) && ValueOf(made, FieldOf(at, v)) == Image(Via(at, made), v)
  {
    if v.Int? {
      TruncatedIff(v.i);
    }
  }

  lemma ViaInjective(at: Cache, made: Cache)
    requires Injective(at) && Injective(made)
    ensures Injective(Via(at, made))
  {
  }

  ghost predicate KeysOf(order: seq<Value>, n: nat, keys: set<Value>)
    requires n <= |order|
  {
    forall k :: k in keys <==> k in order[..n]
  }

  /** Building from the packed entries, one by one, builds the image of the entries. */
  lemma {:induction false} BuiltIsImage(at: Cache, made: Cache, e: map<Value, Value>, order: seq<Value>, p: Packed, n: nat) returns (done: set<Value>)
    requires Injective(at) && Injective(made)
    requires Ordered(order, e.Keys) && Filled(at, e, order, p, |order|) && n <= |order|
    requires Made(made, p, n) && forall k :: k in e ==> Fits(k) && Fits(e[k])
    ensures KeysOf(order, n, done) && EntriesImage(Via(at, made), e, done, Built(made, p, n))
    decreases n
  {
    hide FieldOf, ValueOf, Fits, Injective, Copied, Image, KeysOf, EntriesImage, Via;
    if n == 0 {
      done := {};
      NothingYet(Via(at, made), e);
      NoKeys(order);
    } else {
      var before := BuiltIsImage(at, made, e, order, p, n - 1);
      var k := order[n - 1];
      assert EntryFilled(at, e, order, p, n - 1) && FieldMade(made, p.keys[n - 1]) && FieldMade(made, p.values[n - 1]);
      ValueOfFieldOf(at, made, k);
      ValueOfFieldOf(at, made, e[k]);
      ViaInjective(at, made);
      KeysNext(order, e.Keys, n - 1, before);
      EntriesAdd(Via(at, made), e, before, Built(made, p, n - 1), k);
      done := before + {k};
    }
  }

  lemma NoKeys(order: seq<Value>)
    ensures KeysOf(order, 0, {})
  {
  }

  lemma KeysNext(order: seq<Value>, keys: set<Value>, n: nat, before: set<Value>)
    requires Ordered(order, keys) && n < |order| && KeysOf(order, n, before)
    ensures order[n] !in before && KeysOf(order, n + 1, before + {order[n]})
  {
    assert order[..n + 1] == order[..n] + [order[n]];
  }

  lemma UnpackedIsImage(at: Cache, made: Cache, o: Object, p: Packed, o': Object)
    requires Injective(at) && Injective(made) && IsPacked(at, o, p) && IsUnpacked(made, p, o')
    requires forall k :: k in o.entries ==> Fits(k) && Fits(o.entries[k])
    ensures SameEntries(Via(at, made), o, o')
  {
    hide EntriesImage, Injective, Filled, Fits, Made, Built;
    var order :| Ordered(order, o.entries.Keys) && Filled(at, o.entries, order, p, |order|);
    assert |p.keys| == |order| by { Sizes(at, o.entries, order, p); }
    var done := BuiltIsImage(at, made, o.entries, order, p, |order|);
    assert order[..|order|] == order;
    assert done == o.entries.Keys;
  }

  lemma Sizes(at: Cache, e: map<Value, Value>, order: seq<Value>, p: Packed)
    requires Filled(at, e, order, p, |order|)
    ensures |p.keys| == |order| == |p.values|
  {
  }

  /** What was packed and unpacked together. */
  ghost predicate Sent(src: Heap, b: LuaPack.Bag, base: Heap, d: LuaUnpack.Desk) {
    && LuaPack.BagOk(src, b, {}) && LuaUnpack.DeskOk(b.store, base, d, {})
  }

  /** A packed value whose packed tables are unpacked. */
  predicate Arrived(b: LuaPack.Bag, d: LuaUnpack.Desk, v: Value) {
    Copied(b.at, v) && FieldMade(d.made, FieldOf(b.at, v))
  }

  /** What is inside an arrived table has arrived. */
  lemma ArrivedInside(src: Heap, b: LuaPack.Bag, base: Heap, d: LuaUnpack.Desk, v: Value, u: Value)
    requires Sent(src, b, base, d) && Arrived(b, d, v) && Inside(src, v, u)
    ensures Arrived(b, d, u)
  {
    hide Ordered, Injective, HeapOk, FieldOf, Copied;
    assert v.id in b.at && b.at[v.id] in d.made by { ArrivedTable(b, d, v); }
    var o, p := src[v.id], b.store[b.at[v.id]];
    assert IsPacked(b.at, o, p) && IsUnpacked(d.made, p, d.heap[d.made[b.at[v.id]]]);
    var order :| Ordered(order, o.entries.Keys) && Filled(b.at, o.entries, order, p, |order|);
    var k := KeyFor(o, u);
    var i := IndexOf(order, o.entries.Keys, k);
    assert EntryFilled(b.at, o.entries, order, p, i);
    assert FieldMade(d.made, p.keys[i]) && FieldMade(d.made, p.values[i]);
  }

  lemma ArrivedTable(b: LuaPack.Bag, d: LuaUnpack.Desk, v: Value)
    requires Arrived(b, d, v) && v.Obj?
    ensures v.id in b.at && b.at[v.id] in d.made
  {
  }

  lemma KeyFor(o: Object, u: Value) returns (k: Value)
    requires Has(o, u)
    ensures k in o.entries && (u == k || u == o.entries[k])
  {
    if u in o.entries.Keys {
      k := u;
    } else {
      k :| k in o.entries && o.entries[k] == u;
    }
  }

  lemma IndexOf(order: seq<Value>, keys: set<Value>, k: Value) returns (i: nat)
    requires Ordered(order, keys) && k in keys
    ensures i < |order| && order[i] == k
  {
    assert k in order;
    i :| 0 <= i < |order| && order[i] == k;
  }

  /** If everything fits, the table of an arrived value mirrors its source. */
  lemma ArrivedMirrors(src: Heap, b: LuaPack.Bag, base: Heap, d: LuaUnpack.Desk, w: Value)
    requires Sent(src, b, base, d) && Arrived(b, d, w) && AllFit(src, w)
    ensures Mirrored(Via(b.at, d.made), src, d.heap, w)
  {
    hide SameEntries, IsPacked, IsUnpacked, Injective, HeapOk;
    if w.Obj? {
      var id := w.id;
      PackedTable(src, b, id);
      forall k | k in src[id].entries ensures Fits(k) && Fits(src[id].entries[k]) {
        assert src[id].entries[k] in src[id].entries.Values;
        assert Reaches(src, k, k, 0) && Reaches(src, src[id].entries[k], src[id].entries[k], 0);
        assert Inside(src, w, k) && Inside(src, w, src[id].entries[k]);
        assert Reaches(src, w, k, 1) && Reaches(src, w, src[id].entries[k], 1);
      }
      UnpackedIsImage(b.at, d.made, src[id], b.store[b.at[id]], d.heap[d.made[b.at[id]]]);
    }
  }

  lemma {:induction false} AllMirrored(src: Heap, b: LuaPack.Bag, base: Heap, d: LuaUnpack.Desk, v: Value, w: Value, n: nat)
    requires Sent(src, b, base, d) && Arrived(b, d, v) && AllFit(src, v) && Reaches(src, v, w, n)
    ensures Mirrored(Via(b.at, d.made), src, d.heap, w)
    decreases n
  {
    hide Sent, Arrived, Mirrored, AllFit;
    if n == 0 {
      ArrivedMirrors(src, b, base, d, v);
    } else {
      var u :| Inside(src, v, u) && Reaches(src, u, w, n - 1);
      ArrivedInside(src, b, base, d, v, u);
      FitInside(src, v, u);
      AllMirrored(src, b, base, d, u, w, n - 1);
    }
  }

  lemma FitInside(src: Heap, v: Value, u: Value)
    requires AllFit(src, v) && Inside(src, v, u)
    ensures AllFit(src, u)
  {
    forall w: Value, n: nat | Reaches(src, u, w, n) ensures Fits(w) {
      assert Reaches(src, v, w, n + 1);
    }
  }

  /** What unpacking made: a table of its own, or a value without an oversized integer. */
  predicate Clean(d: LuaUnpack.Desk, v': Value) {
    Fits(v') && (v'.Obj? ==> exists a :: a in d.made && d.made[a] == v'.id)
  }

  lemma FieldsClean(src: Heap, b: LuaPack.Bag, d: LuaUnpack.Desk, a: nat, i: nat)
    requires LuaPack.BagOk(src, b, {}) && a in b.store && Made(d.made, b.store[a], |b.store[a].keys|)
    requires i < |b.store[a].keys|
    ensures i < |b.store[a].values|
    ensures Clean(d, ValueOf(d.made, b.store[a].keys[i])) && Clean(d, ValueOf(d.made, b.store[a].values[i]))
  {
    hide FieldOf, ValueOf, Copied, Injective, HeapOk, Ordered, Clean;
    var p := b.store[a];
    assert LuaPack.Owned(b.at, a);
    var id :| id in b.at && b.at[id] == a;
    assert IsPacked(b.at, src[id], p);
    var order :| Ordered(order, src[id].entries.Keys) && Filled(b.at, src[id].entries, order, p, |order|);
    assert EntryFilled(b.at, src[id].entries, order, p, i);
    assert FieldMade(d.made, p.keys[i]) && FieldMade(d.made, p.values[i]);
    CleanValue(b, d, order[i]);
    CleanValue(b, d, src[id].entries[order[i]]);
  }

  lemma {:induction false} BuiltClean(src: Heap, b: LuaPack.Bag, d: LuaUnpack.Desk, a: nat, n: nat, u': Value)
    requires LuaPack.BagOk(src, b, {}) && a in b.store && Made(d.made, b.store[a], |b.store[a].keys|)
    requires n <= |b.store[a].keys|
    requires u' in Built(d.made, b.store[a], n).Keys || u' in Built(d.made, b.store[a], n).Values
    ensures Clean(d, u')
    decreases n
  {
    hide LuaPack.BagOk, ValueOf, Clean, FieldMade;
    if n > 0 {
      var p := b.store[a];
      FieldsClean(src, b, d, a, n - 1);
      var k, w := ValueOf(d.made, p.keys[n - 1]), ValueOf(d.made, p.values[n - 1]);
      var m := Built(d.made, p, n - 1);
      assert Built(d.made, p, n) == m[k := w];
      if u' != k && u' != w {
        assert u' in m.Keys || u' in m.Values;
        BuiltClean(src, b, d, a, n - 1, u');
      }
    }
  }

  lemma CleanValue(b: LuaPack.Bag, d: LuaUnpack.Desk, v: Value)
    requires Arrived(b, d, v)
    ensures Clean(d, ValueOf(d.made, FieldOf(b.at, v)))
  {
    if v.Int? {
      TruncatedIff(v.i);
    }
  }

  /** Whatever mirrors the source of a clean value is clean. */
  lemma CleanInside(src: Heap, b: LuaPack.Bag, base: Heap, d: LuaUnpack.Desk, cache: Cache, v: Value, u: Value)
    requires Sent(src, b, base, d) && Mirrored(cache, src, d.heap, v) && Clean(d, Image(cache, v)) && Inside(src, v, u)
    ensures Copied(cache, u) && Clean(d, Image(cache, u))
  {
    hide Built, Made, HeapOk, Injective, IsPacked;
    var o, o' := src[v.id], d.heap[cache[v.id]];
    var a :| a in d.made && d.made[a] == cache[v.id];
    assert IsUnpacked(d.made, b.store[a], o');
    var k := KeyFor(o, u);
    assert Image(cache, k) in o'.entries && o'.entries[Image(cache, k)] in o'.entries.Values;
    BuiltClean(src, b, d, a, |b.store[a].keys|, Image(cache, u));
  }

  lemma {:induction false} AllClean(src: Heap, b: LuaPack.Bag, base: Heap, d: LuaUnpack.Desk, cache: Cache, v: Value, w: Value, n: nat)
    requires Sent(src, b, base, d) && Clean(d, Image(cache, v)) && Copied(cache, v) && Reaches(src, v, w, n)
    requires forall u: Value, m: nat :: Reaches(src, v, u, m) ==> Mirrored(cache, src, d.heap, u)
    ensures Fits(w)
    decreases n
  {
    hide Sent, Mirrored;
    assert Reaches(src, v, v, 0);
    if n == 0 {
    } else {
      var u :| Inside(src, v, u) && Reaches(src, u, w, n - 1);
      CleanInside(src, b, base, d, cache, v, u);
      forall x: Value, m: nat | Reaches(src, u, x, m) ensures Mirrored(cache, src, d.heap, x) {
        assert Reaches(src, v, x, m + 1);
      }
      AllClean(src, b, base, d, cache, u, w, n - 1);
    }
  }

  /** The message arrives as the same graph if and only if every integer in it, keys included,
      fits a C int. */
  lemma RoundTripIff(src: Heap, b: LuaPack.Bag, base: Heap, d: LuaUnpack.Desk, v: Value, v': Value)
    requires Sent(src, b, base, d) && Arrived(b, d, v) && v' == ValueOf(d.made, FieldOf(b.at, v))
    ensures AllFit(src, v) <==> exists cache :: SameGraph(cache, src, v, d.heap, v')
  {
    hide Sent, Clean, Mirrored, FieldOf, ValueOf;
    if AllFit(src, v) {
      hide Copied, Image, Injective;
      var cache := Via(b.at, d.made);
      forall w: Value, n: nat | Reaches(src, v, w, n) ensures Mirrored(cache, src, d.heap, w) {
        AllMirrored(src, b, base, d, v, w, n);
      }
      assert Reaches(src, v, v, 0) && Fits(v);
      ValueOfFieldOf(b.at, d.made, v);
      SentInjective(src, b, base, d);
      assert SameGraph(cache, src, v, d.heap, v');
    }
    if cache :| SameGraph(cache, src, v, d.heap, v') {
      CleanValue(b, d, v);
      forall w: Value, n: nat | Reaches(src, v, w, n) ensures Fits(w) {
        AllClean(src, b, base, d, cache, v, w, n);
      }
    }
  }

  lemma SentInjective(src: Heap, b: LuaPack.Bag, base: Heap, d: LuaUnpack.Desk)
    requires Sent(src, b, base, d)
    ensures Injective(Via(b.at, d.made))
  {
    ViaInjective(b.at, d.made);
  }

  /** What packing stores can be unpacked. */
  lemma StoreComplete(src: Heap, b: LuaPack.Bag)
    requires LuaPack.BagOk(src, b, {})
    ensures LuaUnpack.StoreOk(b.store)
  {
    hide HeapOk, Injective, Ordered;
    forall a | a in b.store ensures LuaUnpack.PackedOk(b.store, b.store[a]) {
      assert LuaPack.Owned(b.at, a);
      var id :| id in b.at && b.at[id] == a;
      assert IsPacked(b.at, src[id], b.store[a]);
      var p, e := b.store[a], src[id].entries;
      var order :| Ordered(order, e.Keys) && Filled(b.at, e, order, p, |order|);
      forall i | 0 <= i < |p.keys| ensures LuaUnpack.AddrOk(b.store, p.keys[i]) && LuaUnpack.AddrOk(b.store, p.values[i]) {
        assert EntryFilled(b.at, e, order, p, i);
      }
    }
  }

  lemma PackedAddr(src: Heap, b: LuaPack.Bag, v: Value)
    requires LuaPack.BagOk(src, b, {}) && Copied(b.at, v)
    ensures LuaUnpack.AddrOk(b.store, FieldOf(b.at, v))
  {
  }

  /** Everything a packed value reaches was packed, so nothing unsendable is reached. */
  lemma PackedSendable(src: Heap, b: LuaPack.Bag, v: Value)
    requires LuaPack.BagOk(src, b, {}) && Copied(b.at, v)
    ensures AllSendable(src, v)
  {
    forall w: Value, n: nat | Reaches(src, v, w, n) ensures Sendable(src, w) {
      PackedReach(src, b, v, w, n);
    }
  }

  lemma {:induction false} PackedReach(src: Heap, b: LuaPack.Bag, v: Value, w: Value, n: nat)
    requires LuaPack.BagOk(src, b, {}) && Copied(b.at, v) && Reaches(src, v, w, n)
    ensures Sendable(src, w)
    decreases n
  {
    hide LuaPack.BagOk, IsPacked;
    if v.Obj? {
      PackedTable(src, b, v.id);
    }
    if n > 0 {
      var u :| Inside(src, v, u) && Reaches(src, u, w, n - 1);
      PackedInside(b.at, src[v.id], b.store[b.at[v.id]], u);
      PackedReach(src, b, u, w, n - 1);
    }
  }

  lemma PackedTable(src: Heap, b: LuaPack.Bag, id: nat)
    requires LuaPack.BagOk(src, b, {}) && id in b.at
    ensures id in src && src[id].Table? && b.at[id] in b.store && IsPacked(b.at, src[id], b.store[b.at[id]])
  {
    hide HeapOk, Injective;
  }

  lemma PackedInside(at: Cache, o: Object, p: Packed, u: Value)
    requires IsPacked(at, o, p) && Has(o, u)
    ensures Copied(at, u)
  {
    var order :| Ordered(order, o.entries.Keys) && Filled(at, o.entries, order, p, |order|);
    var k := KeyFor(o, u);
    var i := IndexOf(order, o.entries.Keys, k);
    assert EntryFilled(at, o.entries, order, p, i);
  }

  /** A value that is no table arrives as it is, an integer cut to 32 bits. */
  lemma ScalarsArrive(at: Cache, made: Cache, v: Value)
    requires Copied(at, v) && FieldMade(made, FieldOf(at, v))
    ensures var v' := ValueOf(made, FieldOf(at, v));
            && (v.Obj? <==> v'.Obj?) && (!v.Obj? && !v.Int? ==> v' == v)
            && (v.Int? ==> v' == Int(Truncated(v.i)) && FitsInt(Truncated(v.i)) && (Truncated(v.i) - v.i) % 0x1_0000_0000 == 0)
  {
    if v.Int? {
      TruncatedIff(v.i);
    }
  }

  /** Sending a value: packed in one Lua state, unpacked in another. */
  method Transfer(src: Heap, v: Value, dst: Heap, base: nat) returns (ok: bool, heap: Heap, v': Value)
    requires HeapOk(src) && RefOk(src, v) && forall id :: id in dst ==> id < base
    ensures ok <==> AllSendable(src, v)
    ensures ok ==> (v.Obj? <==> v'.Obj?) && (!v.Obj? && !v.Int? ==> v' == v)
    ensures ok && v.Int? ==> v'.Int? && -0x8000_0000 <= v'.i < 0x8000_0000 && (v'.i - v.i) % 0x1_0000_0000 == 0
    ensures ok ==> (AllFit(src, v) <==> exists cache :: SameGraph(cache, src, v, heap, v'))
    ensures forall id :: id in dst ==> id in heap && heap[id] == dst[id]
  {
    hide HeapOk, AllSendable, SameGraph, AllFit, FieldOf, ValueOf;
    heap, v' := dst, Nil;
    var packer := new LuaPack.Packer(src);
    var f;
    ok, f := packer.PackField(v, {});
    if ok {
      ghost var b := packer.Now();
      PackedSendable(src, b, v);
      StoreComplete(src, b);
      PackedAddr(src, b, v);
      var unpacker := new LuaUnpack.Unpacker(packer.store, dst, base);
      v' := unpacker.UnpackField(f, {});
      heap := unpacker.heap;
      RoundTripIff(src, b, dst, unpacker.Now(), v, v');
      ScalarsArrive(b.at, unpacker.made, v);
    }
  }

  /** The least integer that does not arrive. */
  method LargeIntegerChanges() returns (ok: bool, heap: Heap, v': Value)
    ensures ok && forall cache :: !SameGraph(cache, map[], Int(TWO31), heap, v')
  {
    var v := Int(TWO31);
    assert forall w: Value, n: nat :: Reaches(map[], v, w, n) ==> n == 0 && w == v;
    assert Reaches(map[], v, v, 0) && !Fits(v);
    hide SameGraph;
    ok, heap, v' := Transfer(map[], v, map[], 0);
  }
}
