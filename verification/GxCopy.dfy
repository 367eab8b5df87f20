/** Copying values from one Lua state to another, cycles and sharing included. */
module GxCopy {
  import opened Options
  import opened LuaHeap
  import opened GxModel
  import opened Ranges

  /** The mutable part of a session.  Copies whose filling was cut short are `broken`. */
  datatype Snap = Snap(dst: Heap, next: nat, cache: Cache, broken: set<nat>)

  /** Copies still being filled are `grey`.  Every copy that is neither grey nor broken is an
      image of its source; broken copies never are. */
  ghost predicate SessionOk(src: Heap, env: Env, s: Snap, grey: set<nat>) {
    && HeapOk(src)
    && s.cache.Keys <= src.Keys
    && Injective(s.cache)
    && s.broken <= s.cache.Keys && s.broken !! grey && grey <= s.cache.Keys
    && env.base <= s.next
    && env.globals in s.cache && env.globals !in s.broken && env.globals !in grey && src[env.globals].Table?
    && (forall k :: k in s.cache ==> KindOk(src, env, s, k))
    && (forall d :: d in s.dst ==> d < s.next)
    && (forall k :: k in s.cache && k !in grey && k !in s.broken && k != env.globals ==> IsImage(s.cache, src[k], s.dst[s.cache[k]]))
    && (forall k :: k in s.broken ==> Incomplete(env, src[k], s.dst[s.cache[k]]))
  }

  predicate KindOk(src: Heap, env: Env, s: Snap, k: nat)
    requires k in s.cache && s.cache.Keys <= src.Keys
  {
    && s.cache[k] in s.dst && (src[k].Table? <==> s.dst[s.cache[k]].Table?)
    && (if k == env.globals then s.cache[k] == env.globals' < env.base else env.base <= s.cache[k])
  }

  /** Objects that were there before are as they were. */
  ghost predicate Untouched(dst: Heap, dst': Heap) {
    forall d :: d in dst ==> d in dst' && dst'[d] == dst[d]
  }

  /** What every copying step guarantees: copies only get added, everything that was in
      the destination stays, and only a failure leaves broken copies, all of them new. */
  ghost predicate Grown(s: Snap, s': Snap, ok: bool) {
    && Extends(s.cache, s'.cache)
    && Untouched(s.dst, s'.dst)
    && s.broken <= s'.broken
    && (ok ==> s'.broken == s.broken)
    && (forall k :: k in s'.cache && k !in s.cache ==> s'.cache[k] !in s.dst)
    && (forall k :: k in s'.broken && k !in s.broken ==> k !in s.cache)
  }

  /** How many source objects have no copy yet. */
  ghost function Left(src: Heap, cache: Cache): nat { |src.Keys - cache.Keys| }

  lemma GrownRefl(s: Snap)
    ensures Grown(s, s, true)
  {
  }

  lemma GrownTrans(s0: Snap, s1: Snap, s2: Snap, ok: bool)
    requires Grown(s0, s1, true) && Grown(s1, s2, ok)
    ensures Grown(s0, s2, ok)
  {
  }

  /** One step along a reference, and n of them that leave no object of `stop`. */
  predicate Step(heap: Heap, v: Value, w: Value) {
    v.Obj? && v.id in heap && Holds(heap[v.id], w)
  }

  ghost predicate Path(heap: Heap, stop: set<nat>, v: Value, w: Value, n: nat)
    decreases n
  {
    if n == 0 then v == w
    else exists u :: Step(heap, v, u) && v.id !in stop && Path(heap, stop, u, w, n - 1)
  }

  /** Something uncopyable is reached, other than through the globals table. */
  ghost predicate ReachesForeign(heap: Heap, globals: nat, v: Value) {
    exists w: Value, n: nat :: w.Foreign? && Path(heap, {globals}, v, w, n)
  }

  lemma ReachesOn(heap: Heap, globals: nat, v: Value, u: Value)
    requires Step(heap, v, u) && v.id != globals && ReachesForeign(heap, globals, u)
    ensures ReachesForeign(heap, globals, v)
  {
    var w: Value, n: nat :| w.Foreign? && Path(heap, {globals}, u, w, n);
    assert Path(heap, {globals}, v, w, n + 1);
  }

  /** A new empty object for the source object id. */
  function Started(s: Snap, id: nat, o: Object): Snap {
    Snap(s.dst[s.next := o], s.next + 1, s.cache[id := s.next], s.broken)
  }

  lemma StartOk(src: Heap, env: Env, s: Snap, grey: set<nat>, id: nat, o: Object)
    requires SessionOk(src, env, s, grey) && id in src && id !in s.cache
    requires src[id].Table? <==> o.Table?
    ensures SessionOk(src, env, Started(s, id, o), grey + {id})
    ensures Grown(s, Started(s, id, o), true) && s.next !in s.dst
  {
    hide IsImage, Incomplete, HeapOk;
    StartKinds(src, env, s, grey, id, o);
    StartImages(src, env, s, grey, id, o);
    hide KindOk;
    assert s.next !in s.dst;
    StartGrown(s, id, o);
    hide Grown;
  }

  lemma StartGrown(s: Snap, id: nat, o: Object)
    requires s.next !in s.dst && id !in s.cache
    ensures Grown(s, Started(s, id, o), true)
  {
  }

  lemma StartImages(src: Heap, env: Env, s: Snap, grey: set<nat>, id: nat, o: Object)
    requires SessionOk(src, env, s, grey) && id in src && id !in s.cache
    requires src[id].Table? <==> o.Table?
    ensures var s' := Started(s, id, o);
            && (forall k :: k in s'.cache ==> s'.cache[k] in s'.dst)
            && (forall k :: k in s'.cache && k !in grey + {id} && k !in s'.broken && k != env.globals
                  ==> IsImage(s'.cache, src[k], s'.dst[s'.cache[k]]))
            && (forall k :: k in s'.broken ==> Incomplete(env, src[k], s'.dst[s'.cache[k]]))
  {
    hide IsImage, Incomplete, HeapOk, Injective;
    var s' := Started(s, id, o);
    StartKinds(src, env, s, grey, id, o);
    hide KindOk;
    forall k | k in s'.cache && k !in grey + {id} && k !in s'.broken && k != env.globals
      ensures IsImage(s'.cache, src[k], s'.dst[s'.cache[k]])
    {
      IsImageStable(s.cache, s'.cache, src[k], s.dst[s.cache[k]]);
    }
  }

  lemma StartKinds(src: Heap, env: Env, s: Snap, grey: set<nat>, id: nat, o: Object)
    requires SessionOk(src, env, s, grey) && id in src && id !in s.cache
    requires src[id].Table? <==> o.Table?
    ensures var s' := Started(s, id, o);
            && (forall k :: k in s.cache ==> s.cache[k] in s.dst && s.cache[k] != s.next)
            && (forall k :: k in s'.cache ==> KindOk(src, env, s', k))
  {
    hide IsImage, Incomplete, HeapOk, Injective;
    var s' := Started(s, id, o);
    forall k | k in s'.cache ensures KindOk(src, env, s', k) && (k in s.cache ==> s.cache[k] in s.dst && s.cache[k] != s.next) {
      assert k != id ==> KindOk(src, env, s, k);
    }
  }

  /** Writing into a copy that is being filled. */
  lemma FillOk(src: Heap, env: Env, s: Snap, grey: set<nat>, id: nat, o: Object)
    requires SessionOk(src, env, s, grey) && id in grey && (src[id].Table? <==> o.Table?)
    ensures SessionOk(src, env, s.(dst := s.dst[s.cache[id] := o]), grey)
  {
    hide IsImage, Incomplete, HeapOk;
    var s' := s.(dst := s.dst[s.cache[id] := o]);
    assert KindOk(src, env, s, id);
    assert forall k :: k in s.cache && k != id ==> s.cache[k] != s.cache[id];
    forall k | k in s'.cache ensures KindOk(src, env, s', k) {
      assert KindOk(src, env, s, k);
    }
  }

  /** Finishing with a copy, well or badly. */
  lemma FinishOk(src: Heap, env: Env, s: Snap, grey: set<nat>, id: nat)
    requires SessionOk(src, env, s, grey + {id}) && id !in grey
    ensures IsImage(s.cache, src[id], s.dst[s.cache[id]]) ==> SessionOk(src, env, s, grey)
    ensures Incomplete(env, src[id], s.dst[s.cache[id]]) ==> SessionOk(src, env, s.(broken := s.broken + {id}), grey)
  {
    hide IsImage, Incomplete, HeapOk;
    assert forall k :: k in s.cache ==> KindOk(src, env, s, k);
    var s' := s.(broken := s.broken + {id});
    assert forall k :: k in s.cache ==> KindOk(src, env, s', k);
  }

  lemma ShortTable(cache: Cache, e: map<Value, Value>, done: set<Value>, e': map<Value, Value>, k: Value)
    requires Injective(cache) && EntriesImage(cache, e, done, e') && k in e && k !in done
    ensures |e'| < |e|
  {
    ImageSetSize(cache, done);
    SubsetSize(done, e.Keys - {k});
    assert |e'.Keys| == |e'| && |e.Keys| == |e|;
  }

  /** In a session that was at s0, the copy of id is being filled and is o so far. */
  ghost predicate Filling(src: Heap, env: Env, s0: Snap, s: Snap, grey: set<nat>, id: nat, o: Object) {
    && SessionOk(src, env, s, grey + {id}) && Grown(s0, s, true)
    && id in src && id !in s0.cache && id !in grey
    && id in s.cache && s.cache[id] !in s0.dst
    && s.cache[id] in s.dst && s.dst[s.cache[id]] == o
    && (src[id].Table? <==> o.Table?)
  }

  lemma FillingStarts(src: Heap, env: Env, s: Snap, grey: set<nat>, id: nat, o: Object)
    requires SessionOk(src, env, s, grey) && id in src && id !in s.cache
    requires src[id].Table? <==> o.Table?
    ensures Filling(src, env, s, Started(s, id, o), grey, id, o)
  {
    StartOk(src, env, s, grey, id, o);
  }

  /** Copying a part leaves the half-filled copy alone; failing at it abandons the copy. */
  lemma FillingGrows(src: Heap, env: Env, s0: Snap, s: Snap, s': Snap, grey: set<nat>, id: nat, o: Object, ok: bool)
    requires Filling(src, env, s0, s, grey, id, o)
    requires SessionOk(src, env, s', grey + {id}) && Grown(s, s', ok)
    ensures Extends(s.cache, s'.cache)
    ensures ok ==> Filling(src, env, s0, s', grey, id, o) && s'.dst[s'.cache[id]] == o
    ensures id in s'.cache && s'.cache[id] == s.cache[id] && s'.cache[id] in s'.dst && s'.dst[s'.cache[id]] == o
    ensures !ok && Incomplete(env, src[id], o) ==>
              && SessionOk(src, env, s'.(broken := s'.broken + {id}), grey)
              && Grown(s0, s'.(broken := s'.broken + {id}), false)
  {
    hide SessionOk, Incomplete;
    GrownTrans(s0, s, s', ok);
    FinishOk(src, env, s', grey, id);
  }

  lemma FillingWrites(src: Heap, env: Env, s0: Snap, s: Snap, grey: set<nat>, id: nat, o: Object, o': Object)
    requires Filling(src, env, s0, s, grey, id, o) && (o.Table? <==> o'.Table?)
    ensures Filling(src, env, s0, s.(dst := s.dst[s.cache[id] := o']), grey, id, o')
  {
    hide SessionOk;
    FillOk(src, env, s, grey + {id}, id, o');
  }

  lemma FillingEnds(src: Heap, env: Env, s0: Snap, s: Snap, grey: set<nat>, id: nat, o: Object)
    requires Filling(src, env, s0, s, grey, id, o) && IsImage(s.cache, src[id], o)
    ensures SessionOk(src, env, s, grey) && Grown(s0, s, true)
  {
    hide SessionOk, IsImage;
    FinishOk(src, env, s, grey, id);
  }

  /** The session can go on copying, and fewer source objects are left to copy. */
  lemma FillingCounts(src: Heap, env: Env, s0: Snap, s: Snap, grey: set<nat>, id: nat, o: Object)
    requires Filling(src, env, s0, s, grey, id, o)
    ensures Left(src, s.cache) < Left(src, s0.cache)
    ensures SessionOk(src, env, s, grey + {id}) && id != env.globals
  {
    FewerLeft(src.Keys, s0.cache.Keys, s.cache.Keys, id);
  }

  lemma EntryOk(src: Heap, env: Env, id: nat, k: Value)
    requires HeapOk(src) && id in src && id != env.globals && src[id].Table? && k in src[id].entries
    ensures RefOk(src, k) && RefOk(src, src[id].entries[k])
    ensures ReachesForeign(src, env.globals, k) || ReachesForeign(src, env.globals, src[id].entries[k]) ==> ReachesForeign(src, env.globals, Obj(id))
  {
    hide ReachesForeign;
    PartsOk(src, env, id, k);
    assert src[id].entries[k] in src[id].entries.Values;
    PartsOk(src, env, id, src[id].entries[k]);
  }

  lemma PartsOk(src: Heap, env: Env, id: nat, v: Value)
    requires HeapOk(src) && id in src && id != env.globals && Holds(src[id], v)
    ensures RefOk(src, v)
    ensures ReachesForeign(src, env.globals, v) ==> ReachesForeign(src, env.globals, Obj(id))
  {
    hide ReachesForeign;
    assert ObjectOk(src, src[id]);
    if ReachesForeign(src, env.globals, v) {
      assert Step(src, Obj(id), v);
      ReachesOn(src, env.globals, Obj(id), v);
    }
  }

  /** An entry is still to be set: the copy is not complete. */
  lemma FillingShort(src: Heap, env: Env, s0: Snap, s: Snap, grey: set<nat>, id: nat, o: Object, done: set<Value>, k: Value)
    requires Filling(src, env, s0, s, grey, id, o) && o.Table?
    requires EntriesImage(s.cache, src[id].entries, done, o.entries) && k in src[id].entries && k !in done
    ensures Incomplete(env, src[id], o)
  {
    ShortTable(s.cache, src[id].entries, done, o.entries, k);
  }

  /** Key and value copied: the entry can be set. */
  lemma FillingAdds(src: Heap, env: Env, s0: Snap, s: Snap, m: Snap, s': Snap, grey: set<nat>, id: nat, o: Object, done: set<Value>, k: Value)
    requires Filling(src, env, s0, s', grey, id, o) && o.Table? && Extends(s.cache, m.cache) && Extends(m.cache, s'.cache)
    requires EntriesImage(s.cache, src[id].entries, done, o.entries) && k in src[id].entries && k !in done
    requires Copied(m.cache, k) && Copied(s'.cache, src[id].entries[k])
    ensures EntriesImage(s'.cache, src[id].entries, done + {k},
                         o.entries[Image(m.cache, k) := Image(s'.cache, src[id].entries[k])])
  {
    hide EntriesImage, Copied, Image, Extends;
    var e := src[id].entries;
    EntriesStable(s.cache, m.cache, e, done, o.entries);
    EntriesStable(m.cache, s'.cache, e, done, o.entries);
    ImageStable(m.cache, s'.cache, k);
    EntriesAdd(s'.cache, e, done, o.entries, k);
  }

  lemma GlobalsAreTable(src: Heap, env: Env, s: Snap, grey: set<nat>)
    requires SessionOk(src, env, s, grey)
    ensures env.globals in src && src[env.globals].Table?
  {
  }

  class Session {
    const src: Heap
    const env: Env
    var dst: Heap
    var next: nat
    var cache: Cache
    ghost var broken: set<nat>

    /** The copies, and the pair of the globals tables. */
    ghost function Now(): Snap
      reads this
    {
      Snap(dst, next, cache[env.globals := env.globals'], broken)
    }

    ghost predicate Valid(grey: set<nat>)
      reads this
    {
      SessionOk(src, env, Now(), grey)
    }

    /** A session starts with nothing copied. */
    constructor (src: Heap, dst: Heap, env: Env)
      requires HeapOk(src) && forall d :: d in dst ==> d < env.base
      requires env.globals in src && src[env.globals].Table? && env.globals' in dst && dst[env.globals'].Table?
      ensures Valid({}) && this.src == src && this.env == env
      ensures Now() == Snap(dst, env.base, map[env.globals := env.globals'], {})
    {
      this.src, this.dst, this.env := src, dst, env;
      next := env.base;
      cache := map[];
      broken := {};
    }

    /** Copies one value.  Unless copies were broken before, it fails only for a value that
        reaches something uncopyable. */
    method CopyAny(v: Value, ghost grey: set<nat>) returns (ok: bool, w: Value)
      requires Valid(grey) && HeapOk(src) && RefOk(src, v)
      modifies this
      ensures Valid(grey) && Grown(old(Now()), Now(), ok)
      ensures ok ==> Copied(Now().cache, v) && w == Image(Now().cache, v)
      ensures Copied(old(Now().cache), v) ==> ok && Now() == old(Now())
      ensures !ok ==> ReachesForeign(src, env.globals, v) && (v.Foreign? || (v.Obj? && v.id in broken))
      decreases Left(src, Now().cache), 2
    {
      hide SessionOk, Left;
      match v {
        case Obj(id) =>
          if src[id].Table? {
            ok, w := CopyTable(id, grey);
          } else {
            ok, w := CopyFunction(id, grey);
          }
        case Foreign(_) =>
          ok, w := false, Nil;
          assert Path(src, {env.globals}, v, v, 0);
        case _ =>
          ok, w := true, v;
      }
    }

    /** A table, unless it is the globals table: registered empty, then filled entry by entry, then
        given its metatable. */
    method CopyTable(id: nat, ghost grey: set<nat>) returns (ok: bool, w: Value)
      requires Valid(grey) && id in src && src[id].Table? && HeapOk(src)
      modifies this
      ensures Valid(grey) && Grown(old(Now()), Now(), ok)
      ensures old(id in Now().cache) ==> ok && Now() == old(Now())
      ensures ok ==> id in Now().cache && w == Obj(Now().cache[id])
      ensures !ok ==> ReachesForeign(src, env.globals, Obj(id)) && id in broken
      ensures !ok ==> id in Now().cache && Now().cache[id] in dst && PartOf(Now().cache, src[id], dst[Now().cache[id]])
      decreases Left(src, Now().cache), 1
    {
      hide Left, SessionOk, HeapOk, ReachesForeign, IsImage, Injective, Grown, EntriesImage, PartOf;
      hide Incomplete, Filling, Extends, Untouched, Copied, Image, Holds, Path, Step;
      if id == env.globals {
        GrownRefl(Now());
        return true, Obj(env.globals');
      }
      if id in cache {
        GrownRefl(Now());
        return true, Obj(cache[id]);
      }
      ghost var s0 := Now();
      var entries, meta := src[id].entries, src[id].meta;
      var t := next;
      FillingStarts(src, env, s0, grey, id, Table(map[], None));
      dst, cache, next := dst[t := Table(map[], None)], cache[id := t], next + 1;
      assert Now() == Started(s0, id, Table(map[], None));
      w := Obj(t);
      var todo := entries.Keys;
      NothingYet(Now().cache, entries);
      assert entries.Keys - todo == {};
      while todo != {}
        invariant todo <= entries.Keys
        invariant t in dst && dst[t].Table? && dst[t].meta.None?
        invariant Filling(src, env, s0, Now(), grey, id, dst[t]) && id in Now().cache && Now().cache[id] == t
        invariant EntriesImage(Now().cache, entries, entries.Keys - todo, dst[t].entries)
        decreases todo
      {
        var k :| k in todo;
        ghost var done := entries.Keys - todo;
        ok := CopyEntry(id, t, k, s0, grey, done);
        if !ok {
          return;
        }
        todo := todo - {k};
        assert entries.Keys - todo == done + {k};
      }
      assert entries.Keys - todo == entries.Keys;
      ok := CopyMetatable(id, t, s0, grey);
    }

    /** One entry more: its key, then its value. */
    method CopyEntry(id: nat, t: nat, k: Value, ghost s0: Snap, ghost grey: set<nat>, ghost done: set<Value>) returns (ok: bool)
      requires HeapOk(src) && id in src && src[id].Table? && t in dst && dst[t].Table? && dst[t].meta.None?
      requires Filling(src, env, s0, Now(), grey, id, dst[t]) && id in Now().cache && Now().cache[id] == t
      requires EntriesImage(Now().cache, src[id].entries, done, dst[t].entries) && k in src[id].entries && k !in done
      modifies this
      ensures id in Now().cache && Now().cache[id] == t && t in dst
      ensures ok ==> Filling(src, env, s0, Now(), grey, id, dst[t]) && dst[t].Table? && dst[t].meta.None?
      ensures ok ==> EntriesImage(Now().cache, src[id].entries, done + {k}, dst[t].entries)
      ensures !ok ==> Valid(grey) && Grown(s0, Now(), false) && ReachesForeign(src, env.globals, Obj(id)) && id in broken
      ensures !ok ==> PartOf(Now().cache, src[id], dst[t])
      decreases Left(src, s0.cache), 0
    {
      hide Left, SessionOk, HeapOk, ReachesForeign, IsImage, Injective, Grown, EntriesImage, PartOf;
      hide Incomplete, Filling, Extends, Untouched, Copied, Image, Holds, Path, Step;
      var e := src[id].entries;
      ghost var s1, o := Now(), dst[t];
      FillingShort(src, env, s0, s1, grey, id, o, done, k);
      FillingCounts(src, env, s0, s1, grey, id, o);
      EntryOk(src, env, id, k);
      var k', v';
      ok, k' := CopyAny(k, grey + {id});
      ghost var s2 := Now();
      FillingGrows(src, env, s0, s1, s2, grey, id, o, ok);
      if !ok {
        PartStays(s1.cache, s2.cache, src[id], o, done);
        broken := broken + {id};
        return;
      }
      FillingCounts(src, env, s0, s2, grey, id, o);
      EntriesStable(s1.cache, s2.cache, e, done, o.entries);
      ok, v' := CopyAny(e[k], grey + {id});
      FillingGrows(src, env, s0, s2, Now(), grey, id, o, ok);
      if !ok {
        PartStays(s2.cache, Now().cache, src[id], o, done);
        broken := broken + {id};
        return;
      }
      var o' := Table(dst[t].entries[k' := v'], None);
      FillingAdds(src, env, s0, s1, s2, Now(), grey, id, o, done, k);
      FillingWrites(src, env, s0, Now(), grey, id, o, o');
      dst := dst[t := o'];
    }

    /** The metatable, for a copy that has all its entries. */
    method CopyMetatable(id: nat, t: nat, ghost s0: Snap, ghost grey: set<nat>) returns (ok: bool)
      requires HeapOk(src) && id in src && src[id].Table? && t in dst && dst[t].Table? && dst[t].meta.None?
      requires Filling(src, env, s0, Now(), grey, id, dst[t]) && id in Now().cache && Now().cache[id] == t
      requires EntriesImage(Now().cache, src[id].entries, src[id].entries.Keys, dst[t].entries)
      modifies this
      ensures Valid(grey) && Grown(s0, Now(), ok)
      ensures id in Now().cache && Now().cache[id] == t
      ensures !ok ==> ReachesForeign(src, env.globals, Obj(id)) && id in broken
      ensures !ok ==> t in dst && PartOf(Now().cache, src[id], dst[t])
      decreases Left(src, s0.cache), 0
    {
      hide Left, SessionOk, HeapOk, ReachesForeign, Injective, Grown, EntriesImage, PartOf;
      var meta := src[id].meta;
      ghost var o := dst[t];
      ok := true;
      if meta.Some? {
        ghost var s1 := Now();
        FillingCounts(src, env, s0, s1, grey, id, o);
        PartsOk(src, env, id, Obj(meta.value));
        var m;
        ok, m := CopyAny(Obj(meta.value), grey + {id});
        FillingGrows(src, env, s0, s1, Now(), grey, id, o, ok);
        EntriesStable(s1.cache, Now().cache, src[id].entries, src[id].entries.Keys, o.entries);
        if !ok {
          PartStays(s1.cache, Now().cache, src[id], o, src[id].entries.Keys);
          broken := broken + {id};
          return;
        }
        FillingWrites(src, env, s0, Now(), grey, id, o, o.(meta := Some(m.id)));
        dst := dst[t := dst[t].(meta := Some(m.id))];
      }
      FillingEnds(src, env, s0, Now(), grey, id, dst[t]);
    }

    /** A function: loaded from its dump and registered, its first upvalue the globals table of the
        destination and the others nil; its upvalues are set only once all of them are copied. */
    method CopyFunction(id: nat, ghost grey: set<nat>) returns (ok: bool, w: Value)
      requires Valid(grey) && HeapOk(src) && id in src && src[id].Func?
      modifies this
      ensures Valid(grey) && Grown(old(Now()), Now(), ok)
      ensures old(id in Now().cache) ==> ok && Now() == old(Now())
      ensures ok ==> id in Now().cache && w == Obj(Now().cache[id])
      ensures !ok ==> ReachesForeign(src, env.globals, Obj(id)) && id in broken
      ensures !ok ==> id in Now().cache && Now().cache[id] in dst && AsLoaded(env, src[id], dst[Now().cache[id]])
      decreases Left(src, Now().cache), 1
    {
      hide Left, SessionOk, HeapOk, ReachesForeign, Injective, Grown, Extends, ValuesImage, AsLoaded;
      hide Untouched, Copied, Image, IsImage, Incomplete, Filling, Path, Step;
      GlobalsAreTable(src, env, Now(), grey);
      if id in cache {
        GrownRefl(Now());
        return true, Obj(cache[id]);
      }
      ghost var s0 := Now();
      var t := next;
      var o := Func(src[id].proto, LoadedUpvalues(env.globals', |src[id].upvalues|));
      LoadedIs(env, src[id]);
      FillingStarts(src, env, s0, grey, id, o);
      dst, cache, next := dst[t := o], cache[id := t], next + 1;
      assert Now() == Started(s0, id, o);
      w := Obj(t);
      var stack;
      ok, stack := CopyUpvalues(id, o, s0, grey);
      if ok {
        UpvaluesDone(Now().cache, src[id], o.(upvalues := stack));
        FillingWrites(src, env, s0, Now(), grey, id, o, o.(upvalues := stack));
        dst := dst[t := o.(upvalues := stack)];
        FillingEnds(src, env, s0, Now(), grey, id, dst[t]);
      }
    }

    /** The upvalues, in order. */
    method CopyUpvalues(id: nat, ghost o: Object, ghost s0: Snap, ghost grey: set<nat>) returns (ok: bool, stack: seq<Value>)
      requires HeapOk(src) && id in src && src[id].Func? && Filling(src, env, s0, Now(), grey, id, o)
      requires o.Func? && o.upvalues == LoadedUpvalues(env.globals', |src[id].upvalues|)
      modifies this
      ensures ok ==> Filling(src, env, s0, Now(), grey, id, o) && ValuesImage(Now().cache, src[id].upvalues, stack)
      ensures id in Now().cache && Now().cache[id] == old(Now().cache[id])
      ensures !ok ==> Valid(grey) && Grown(s0, Now(), false) && ReachesForeign(src, env.globals, Obj(id)) && id in broken
      ensures !ok ==> Now().cache[id] in dst && dst[Now().cache[id]] == o
      decreases Left(src, s0.cache), 0
    {
      hide Left, SessionOk, HeapOk, ReachesForeign, Injective, Grown, Extends, ValuesImage, Untouched, Copied, Image, IsImage, Incomplete, Path, Step;
      var ups := src[id].upvalues;
      stack := [];
      NoValuesYet(Now().cache);
      assert ups[..0] == [];
      while |stack| < |ups|
        invariant |stack| <= |ups|
        invariant Filling(src, env, s0, Now(), grey, id, o)
        invariant id in Now().cache && Now().cache[id] == old(Now().cache[id])
        invariant ValuesImage(Now().cache, ups[..|stack|], stack)
      {
        var i := |stack|;
        ghost var s1 := Now();
        FillingCounts(src, env, s0, s1, grey, id, o);
        PartsOk(src, env, id, ups[i]);
        UpvalueShort(env, src[id], o, i);
        LoadedIsCopied(env, s1.cache, i);
        var u;
        ok, u := CopyAny(ups[i], grey + {id});
        FillingGrows(src, env, s0, s1, Now(), grey, id, o, ok);
        if !ok {
          broken := broken + {id};
          return;
        }
        ValuesAdd(s1.cache, Now().cache, ups, stack);
        stack := stack + [u];
      }
      ok := true;
      assert ups[..|stack|] == ups;
    }
  }
}
