/** What a copying session means for the values copied in it. */
module GxTheorems {
  import opened Options
  import opened LuaHeap
  import opened GxModel
  import opened GxCopy

  /** Where it is not known what is reached: broken copies and the globals table. */
  function Ends(env: Env, s: Snap): set<nat> { s.broken + {env.globals} }

  /** The destination objects that stand for these. */
  function Ends'(env: Env, s: Snap): set<nat>
    requires s.broken <= s.cache.Keys
  {
    (set k | k in s.broken :: s.cache[k]) + {env.globals'}
  }

  /** Between copies, a copy is an image of its source exactly when it is not broken. */
  lemma FaithfulUnlessBroken(src: Heap, env: Env, s: Snap, k: nat)
    requires SessionOk(src, env, s, {}) && k in s.cache && k != env.globals
    ensures IsImage(s.cache, src[k], s.dst[s.cache[k]]) <==> k !in s.broken
  {
    assert KindOk(src, env, s, env.globals);
    if k in s.broken {
      IncompleteIsNoImage(env, s.cache, src[k], s.dst[s.cache[k]]);
    }
  }

  /** References of a faithful copy are the images of the references of its source. */
  lemma ImageHolds(cache: Cache, o: Object, o': Object, v: Value)
    requires IsImage(cache, o, o') && Holds(o, v)
    ensures Copied(cache, v) && Holds(o', Image(cache, v))
  {
    if o.Table? && !(v.Obj? && o.meta == Some(v.id)) {
      var e, e' := o.entries, o'.entries;
      if v in e.Keys {
        assert Image(cache, v) in ImageSet(cache, e.Keys);
      } else {
        var k :| k in e && e[k] == v;
        assert Image(cache, k) in e'.Keys && e'[Image(cache, k)] in e'.Values;
      }
    }
  }

  lemma HoldsImage(cache: Cache, o: Object, o': Object, w: Value) returns (v: Value)
    requires IsImage(cache, o, o') && Holds(o', w)
    ensures Holds(o, v) && Copied(cache, v) && Image(cache, v) == w
  {
    match o' {
      case Table(e', m') =>
        var e := o.entries;
        if w.Obj? && m' == Some(w.id) {
          v := Obj(o.meta.value);
        } else if w in e'.Keys {
          v :| v in e && Image(cache, v) == w;
        } else {
          var k' :| k' in e' && e'[k'] == w;
          assert k' in ImageSet(cache, e.Keys);
          var k :| k in e && Image(cache, k) == k';
          v := e[k];
          assert v in e.Values;
        }
      case Func(_, vs') =>
        var i :| 0 <= i < |vs'| && vs'[i] == w;
        v := o.upvalues[i];
    }
  }

  /** Whatever a copied value reaches, through copies that are not broken, is copied too, and
      the copy reaches its image in as many steps. */
  lemma {:induction false} CopyReaches(src: Heap, env: Env, s: Snap, v: Value, w: Value, n: nat)
    requires SessionOk(src, env, s, {}) && Copied(s.cache, v) && Path(src, Ends(env, s), v, w, n)
    ensures Copied(s.cache, w) && Path(s.dst, Ends'(env, s), Image(s.cache, v), Image(s.cache, w), n)
    decreases n
  {
    hide IsImage, Incomplete, HeapOk;
    if n > 0 {
      var u :| Step(src, v, u) && v.id !in Ends(env, s) && Path(src, Ends(env, s), u, w, n - 1);
      assert KindOk(src, env, s, v.id);
      ImageHolds(s.cache, src[v.id], s.dst[s.cache[v.id]], u);
      CopyReaches(src, env, s, u, w, n - 1);
      assert s.cache[v.id] !in Ends'(env, s);
      assert Step(s.dst, Image(s.cache, v), Image(s.cache, u));
    }
  }

  /** Whatever the copy reaches, through copies that are not broken, is the image of something
      its source reaches in as many steps. */
  lemma {:induction false} ReachedIsImage(src: Heap, env: Env, s: Snap, v: Value, w': Value, n: nat) returns (w: Value)
    requires SessionOk(src, env, s, {}) && Copied(s.cache, v) && Path(s.dst, Ends'(env, s), Image(s.cache, v), w', n)
    ensures Copied(s.cache, w) && Image(s.cache, w) == w' && Path(src, Ends(env, s), v, w, n)
    decreases n
  {
    hide IsImage, Incomplete, HeapOk;
    w := v;
    if n > 0 {
      var v' := Image(s.cache, v);
      var u' :| Step(s.dst, v', u') && v'.id !in Ends'(env, s) && Path(s.dst, Ends'(env, s), u', w', n - 1);
      assert KindOk(src, env, s, v.id);
      assert v.id !in Ends(env, s);
      var u := HoldsImage(s.cache, src[v.id], s.dst[s.cache[v.id]], u');
      w := ReachedIsImage(src, env, s, u, w', n - 1);
      assert Step(src, v, u);
    }
  }

  lemma BrokenIsShort(src: Heap, env: Env, s: Snap, k: nat)
    requires SessionOk(src, env, s, {}) && (k in s.broken || k in s.cache) && k != env.globals
    ensures HeapOk(src) && k in s.cache && k in src && s.cache[k] in s.dst
    ensures k in s.broken ==> Incomplete(env, src[k], s.dst[s.cache[k]])
    ensures IsImage(s.cache, src[k], s.dst[s.cache[k]]) <==> k !in s.broken
  {
    assert KindOk(src, env, s, k);
    FaithfulUnlessBroken(src, env, s, k);
  }

  /** Copying in a session without broken copies succeeds exactly for the values that reach
      nothing uncopyable other than through the globals table; all they reach is then copied
      faithfully, and the copy shares nothing but the globals table with what was in the
      destination. */
  method Copy(session: Session, v: Value) returns (ok: bool, w: Value)
    requires session.Valid({}) && RefOk(session.src, v) && session.broken == {}
    modifies session
    ensures session.Valid({}) && Grown(old(session.Now()), session.Now(), ok)
    ensures ok <==> !ReachesForeign(session.src, session.env.globals, v)
    ensures !ok ==> v.Foreign? || (v.Obj? && v.id in session.broken)
    ensures ok ==> session.broken == {} && Copied(session.Now().cache, v) && w == Image(session.Now().cache, v)
    ensures ok ==> var cache := session.Now().cache;
                   forall u, n: nat :: Path(session.src, {session.env.globals}, v, u, n) ==>
                     Copied(cache, u) && (u.Obj? && u.id != session.env.globals ==> IsImage(cache, session.src[u.id], session.dst[cache[u.id]]))
  {
    ok, w := session.CopyAny(v, {});
    ghost var s, src := session.Now(), session.src;
    if ok {
      assert Ends(session.env, s) == {session.env.globals};
      forall u: Value, n: nat | Path(src, {session.env.globals}, v, u, n)
        ensures Copied(s.cache, u) && (u.Obj? && u.id != session.env.globals ==> IsImage(s.cache, src[u.id], s.dst[s.cache[u.id]]))
      {
        CopyReaches(src, session.env, s, v, u, n);
      }
    }
  }

  /** A failed copy stays in the cache: asked for the same object again, the session hands out
      the incomplete copy and reports success. */
  method CopyAgain(session: Session, id: nat) returns (first: bool, second: bool, w: Value)
    requires session.Valid({}) && id in session.src && id != session.env.globals && session.broken == {}
    modifies session
    ensures first <==> !ReachesForeign(session.src, session.env.globals, Obj(id))
    ensures second && w.Obj? && w.id in session.dst
    ensures !first ==> Incomplete(session.env, session.src[id], session.dst[w.id])
    ensures first <==> IsImage(session.Now().cache, session.src[id], session.dst[w.id])
  {
    hide SessionOk, IsImage, Incomplete, ReachesForeign, HeapOk;
    var w0;
    first, w0 := Copy(session, Obj(id));
    BrokenIsShort(session.src, session.env, session.Now(), id);
    second, w := session.CopyAny(Obj(id), {});
  }

  /** It happens with a table that holds one coroutine: the second copy is an empty table. */
  method HoleCopied(key: Value, what: nat) returns (session: Session, w: Value)
    requires key.Bool? || key.Int? || key.Str?
    ensures session.src == map[0 := Table(map[], None), 1 := Table(map[key := Foreign(what)], None)]
    ensures w.Obj? && w.id in session.dst && session.dst[w.id].Table? && session.dst[w.id].entries == map[]
  {
    var src := map[0 := Table(map[], None), 1 := Table(map[key := Foreign(what)], None)];
    session := new Session(src, map[0 := Table(map[], None)], Env(1, 0, 0));
    assert Foreign(what) in src[1].entries.Values by { assert src[1].entries[key] == Foreign(what); }
    assert Path(src, {0}, Foreign(what), Foreign(what), 0) && Step(src, Obj(1), Foreign(what));
    assert Path(src, {0}, Obj(1), Foreign(what), 1);
    assert ReachesForeign(src, 0, Obj(1));
    var first, second;
    first, second, w := CopyAgain(session, 1);
  }
}
