/** What it means for objects of one Lua state to be images of objects of another. */
module GxModel {
  import opened Options
  import opened LuaHeap
  import opened Ranges

  /** The copies made so far: source object to destination object. */
  type Cache = map<nat, nat>

  /** The globals table of the source is never copied: that of the destination stands for it.  New
      objects of the destination are numbered from base on. */
  datatype Env = Env(base: nat, globals: nat, globals': nat)

  /** The value that stands for v in the destination. */
  function Image(cache: Cache, v: Value): (w: Value)
    ensures !v.Obj? ==> w == v
    ensures v.Obj? ==> w.Obj?
  {
    if v.Obj? && v.id in cache then Obj(cache[v.id]) else v
  }

  predicate Copied(cache: Cache, v: Value) {
    match v
    case Obj(id) => id in cache
    case Foreign(_) => false
    case _ => true
  }

  function ImageSet(cache: Cache, vs: set<Value>): set<Value> {
    set v | v in vs :: Image(cache, v)
  }

  /** e' holds the images of the entries of e whose keys are in done, and nothing else. */
  ghost predicate EntriesImage(cache: Cache, e: map<Value, Value>, done: set<Value>, e': map<Value, Value>) {
    && done <= e.Keys
    && e'.Keys == ImageSet(cache, done)
    && forall k :: k in done ==>
         && Copied(cache, k) && Copied(cache, e[k])
         && Image(cache, k) in e' && e'[Image(cache, k)] == Image(cache, e[k])
  }

  ghost predicate ValuesImage(cache: Cache, vs: seq<Value>, vs': seq<Value>) {
    && |vs'| == |vs|
    && forall i :: 0 <= i < |vs| ==> Copied(cache, vs[i]) && vs'[i] == Image(cache, vs[i])
  }

  /** Every part of o has an image, and o' is made of those images. */
  ghost predicate IsImage(cache: Cache, o: Object, o': Object) {
    match (o, o')
    case (Table(e, m), Table(e', m')) =>
      && EntriesImage(cache, e, e.Keys, e')
      && (m.Some? ==> m.value in cache)
      && m' == (if m.Some? && m.value in cache then Some(cache[m.value]) else None)
    case (Func(p, vs), Func(p', vs')) => p == p' && ValuesImage(cache, vs, vs')
    case _ => false
  }

  predicate Extends(cache: Cache, cache': Cache) {
    forall s :: s in cache ==> s in cache' && cache'[s] == cache[s]
  }

  predicate Injective(cache: Cache) {
    forall s, t :: s in cache && t in cache && cache[s] == cache[t] ==> s == t
  }

  lemma ImageInjective(cache: Cache, v: Value, w: Value)
    requires Injective(cache) && Copied(cache, v) && Copied(cache, w) && Image(cache, v) == Image(cache, w)
    ensures v == w
  {
  }

  lemma ImageStable(cache: Cache, cache': Cache, v: Value)
    requires Extends(cache, cache') && Copied(cache, v)
    ensures Copied(cache', v) && Image(cache', v) == Image(cache, v)
  {
  }

  lemma EntriesStable(cache: Cache, cache': Cache, e: map<Value, Value>, done: set<Value>, e': map<Value, Value>)
    requires Extends(cache, cache') && EntriesImage(cache, e, done, e')
    ensures EntriesImage(cache', e, done, e')
  {
    forall k | k in done
      ensures Copied(cache', k) && Copied(cache', e[k])
      ensures Image(cache', k) == Image(cache, k) && Image(cache', e[k]) == Image(cache, e[k])
    {
      ImageStable(cache, cache', k);
      ImageStable(cache, cache', e[k]);
    }
    assert ImageSet(cache', done) == ImageSet(cache, done);
  }

  lemma NothingYet(cache: Cache, e: map<Value, Value>)
    ensures EntriesImage(cache, e, {}, map[])
  {
  }

  lemma NoValuesYet(cache: Cache)
    ensures ValuesImage(cache, [], [])
  {
  }

  /** An image stays one when more objects are copied. */
  lemma IsImageStable(cache: Cache, cache': Cache, o: Object, o': Object)
    requires Extends(cache, cache') && IsImage(cache, o, o')
    ensures IsImage(cache', o, o')
  {
    match o
    case Table(e, m) => EntriesStable(cache, cache', e, e.Keys, o'.entries);
    case Func(_, vs) => ValuesStable(cache, cache', vs, o'.upvalues);
  }

  lemma ValuesStable(cache: Cache, cache': Cache, vs: seq<Value>, vs': seq<Value>)
    requires Extends(cache, cache') && ValuesImage(cache, vs, vs')
    ensures ValuesImage(cache', vs, vs')
  {
    forall i | 0 <= i < |vs| ensures Copied(cache', vs[i]) && vs'[i] == Image(cache', vs[i]) {
      ImageStable(cache, cache', vs[i]);
    }
  }

  /** Setting the image of one more entry. */
  lemma EntriesAdd(cache: Cache, e: map<Value, Value>, done: set<Value>, e': map<Value, Value>, k: Value)
    requires Injective(cache) && EntriesImage(cache, e, done, e')
    requires k in e && k !in done && Copied(cache, k) && Copied(cache, e[k])
    ensures EntriesImage(cache, e, done + {k}, e'[Image(cache, k) := Image(cache, e[k])])
  {
    hide Injective, Copied, Image;
    NewImage(cache, done, k);
    assert forall j :: j in done ==> Image(cache, j) != Image(cache, k);
  }

  lemma NewImage(cache: Cache, done: set<Value>, k: Value)
    requires Injective(cache) && k !in done && Copied(cache, k) && forall j :: j in done ==> Copied(cache, j)
    ensures forall j :: j in done ==> Image(cache, j) != Image(cache, k)
    ensures ImageSet(cache, done + {k}) == ImageSet(cache, done) + {Image(cache, k)}
  {
    forall j | j in done ensures Image(cache, j) != Image(cache, k) {
      if Image(cache, j) == Image(cache, k) {
        ImageInjective(cache, j, k);
      }
    }
  }

  lemma {:induction false} ImageSetSize(cache: Cache, vs: set<Value>)
    requires Injective(cache) && forall v :: v in vs ==> Copied(cache, v)
    ensures |ImageSet(cache, vs)| == |vs|
  {
    if v :| v in vs {
      ImageSetSize(cache, vs - {v});
      forall w | w in vs - {v} ensures Image(cache, w) != Image(cache, v) {
        if Image(cache, w) == Image(cache, v) {
          ImageInjective(cache, v, w);
        }
      }
      assert ImageSet(cache, vs) == ImageSet(cache, vs - {v}) + {Image(cache, v)};
    } else {
      assert vs == {} && ImageSet(cache, vs) == {};
    }
  }

  lemma ValuesAdd(cache: Cache, cache': Cache, vs: seq<Value>, vs': seq<Value>)
    requires Extends(cache, cache') && |vs'| < |vs| && ValuesImage(cache, vs[..|vs'|], vs') && Copied(cache', vs[|vs'|])
    ensures ValuesImage(cache', vs[..|vs'| + 1], vs' + [Image(cache', vs[|vs'|])])
  {
    ValuesStable(cache, cache', vs[..|vs'|], vs');
  }

  lemma UpvaluesDone(cache: Cache, o: Object, o': Object)
    requires o.Func? && o'.Func? && o.proto == o'.proto && ValuesImage(cache, o.upvalues, o'.upvalues)
    ensures IsImage(cache, o, o')
  {
  }

  /** The upvalues of a function just loaded: the first is the globals table, the others are nil. */
  function LoadedUpvalue(globals: nat, i: nat): Value { if i == 0 then Obj(globals) else Nil }

  function LoadedUpvalues(globals: nat, n: nat): seq<Value> {
    seq(n, i requires 0 <= i < n => LoadedUpvalue(globals, i))
  }

  /** The part of a table that was copied before something in it could not be: images of some of its
      entries, and nothing else. */
  ghost predicate PartOf(cache: Cache, o: Object, o': Object) {
    o.Table? && o'.Table? && o'.meta.None? && exists done :: EntriesImage(cache, o.entries, done, o'.entries)
  }

  /** A function as it was loaded. */
  predicate AsLoaded(env: Env, o: Object, o': Object) {
    && o.Func? && o'.Func? && o'.proto == o.proto && |o'.upvalues| == |o.upvalues|
    && forall i :: 0 <= i < |o'.upvalues| ==> o'.upvalues[i] == if i == 0 then Obj(env.globals') else Nil
  }

  lemma LoadedIs(env: Env, o: Object)
    requires o.Func?
    ensures AsLoaded(env, o, Func(o.proto, LoadedUpvalues(env.globals', |o.upvalues|)))
  {
  }

  lemma PartStays(cache: Cache, cache': Cache, o: Object, o': Object, done: set<Value>)
    requires o.Table? && o'.Table? && o'.meta.None? && Extends(cache, cache') && EntriesImage(cache, o.entries, done, o'.entries)
    ensures PartOf(cache', o, o')
  {
    EntriesStable(cache, cache', o.entries, done, o'.entries);
  }

  /** An upvalue is as it was loaded, where the source has something else. */
  predicate UpvalueMissing(env: Env, i: nat, v: Value, v': Value) {
    v' == LoadedUpvalue(env.globals', i) && v != LoadedUpvalue(env.globals, i)
  }

  /** Something of o is missing in o' for good: an entry, the metatable or an upvalue. */
  ghost predicate Incomplete(env: Env, o: Object, o': Object) {
    match (o, o')
    case (Table(e, m), Table(e', m')) => |e'| < |e| || (m.Some? && m'.None?)
    case (Func(_, vs), Func(_, vs')) => |vs'| == |vs| && exists i :: 0 <= i < |vs| && UpvalueMissing(env, i, vs[i], vs'[i])
    case _ => false
  }

  lemma UpvalueShort(env: Env, o: Object, o': Object, i: nat)
    requires o.Func? && o'.Func? && i < |o.upvalues| && o'.upvalues == LoadedUpvalues(env.globals', |o.upvalues|)
    ensures o.upvalues[i] != LoadedUpvalue(env.globals, i) ==> Incomplete(env, o, o')
  {
    assert UpvalueMissing(env, i, o.upvalues[i], o'.upvalues[i]) <==> o.upvalues[i] != LoadedUpvalue(env.globals, i);
  }

  lemma LoadedIsCopied(env: Env, cache: Cache, i: nat)
    requires env.globals in cache
    ensures Copied(cache, LoadedUpvalue(env.globals, i))
  {
  }

  /** An incomplete copy is not an image, whatever else gets copied. */
  lemma IncompleteIsNoImage(env: Env, cache: Cache, o: Object, o': Object)
    requires Injective(cache) && env.globals in cache && cache[env.globals] == env.globals' && Incomplete(env, o, o')
    ensures !IsImage(cache, o, o')
  {
    match o
    case Table(_, _) =>
      if IsImage(cache, o, o') {
        ImageSetSize(cache, o.entries.Keys);
      }
    case Func(_, vs) =>
      var i :| 0 <= i < |vs| && UpvalueMissing(env, i, vs[i], o'.upvalues[i]);
      if Copied(cache, vs[i]) && Image(cache, vs[i]) == o'.upvalues[i] {
        ImageInjective(cache, vs[i], LoadedUpvalue(env.globals, i));
      }
  }

  lemma FewerLeft(all: set<nat>, had: set<nat>, have: set<nat>, id: nat)
    requires id in all && id !in had && had <= have && id in have
    ensures |all - have| < |all - had|
  {
    var a, b := all - have, all - had;
    assert a <= b && id in b && id !in a;
    assert a <= b - {id};
    SubsetSize(a, b - {id});
  }
}
