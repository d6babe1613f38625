/**
 The two-way index between entities and the windows that show them.
 */
module WindowIndex {
  import opened EffectQueue

  /** An invalidator belongs to one window, so a set of windows stands for a map of invalidators. */
  datatype Index = Index(invalidators: map<Entity, set<Window>>,
                         tracked: map<Window, set<Entity>>,
                         current: map<Entity, Window>)

  function At(m: map<nat, set<nat>>, k: nat): set<nat> {
    if k in m then m[k] else {}
  }

  /** The windows whose last frame used the entity. */
  function Showing(ix: Index, e: Entity): set<Window> {
    set w | w in ix.tracked && e in ix.tracked[w]
  }

  /** The invalidators that `notify` keeps. */
  function LiveInvalidators(ix: Index, e: Entity): set<Window> {
    set w | w in At(ix.invalidators, e) && w in ix.tracked && e in ix.tracked[w]
  }

  /** An entity's invalidators are windows that show it, and all of them until it is released. */
  ghost predicate Linked(invalidators: map<Entity, set<Window>>, tracked: map<Window, set<Entity>>, released: set<Entity>) {
    && (forall e, w :: w in At(invalidators, e) ==> e in At(tracked, w))
    && (forall e, w :: e in At(tracked, w) && e !in released ==> w in At(invalidators, e))
  }

  ghost predicate IndexOk(ix: Index, released: set<Entity>) {
    Linked(ix.invalidators, ix.tracked, released)
  }

  function Detached(m: map<Entity, set<Window>>, es: set<Entity>, w: Window): map<Entity, set<Window>> {
    map e | e in m :: if e in es then m[e] - {w} else m[e]
  }

  function Attached(m: map<Entity, set<Window>>, es: set<Entity>, w: Window): map<Entity, set<Window>> {
    map e | e in m.Keys + es :: (if e in m then m[e] else {}) + (if e in es then {w} else {})
  }

  /** The entities of a frame get its window as their current one. */
  function Redirected(m: map<Entity, Window>, es: set<Entity>, w: Window): map<Entity, Window> {
    map e | e in m.Keys + es :: if e in es then w else m[e]
  }

  function Abandoned(m: map<Entity, Window>, es: set<Entity>, w: Window): map<Entity, Window> {
    map e | e in m && !(m[e] == w && e in es) :: m[e]
  }

  function Recorded(ix: Index, w: Window, es: set<Entity>): Index {
    Index(Attached(Detached(ix.invalidators, At(ix.tracked, w), w), es, w),
          ix.tracked[w := es],
          Redirected(ix.current, es, w))
  }

  function Forgotten(ix: Index, e: Entity): Index {
    ix.(invalidators := ix.invalidators - {e}, current := ix.current - {e})
  }

  function Closed(ix: Index, w: Window): Index {
    Index(Detached(ix.invalidators, At(ix.tracked, w), w),
          ix.tracked - {w},
          Abandoned(ix.current, At(ix.tracked, w), w))
  }

  // The maps are built up one entity at a time.

  lemma DetachOne(m: map<Entity, set<Window>>, es: set<Entity>, e: Entity, w: Window)
    ensures Detached(m, es + {e}, w) == if e in m then Detached(m, es, w)[e := m[e] - {w}] else Detached(m, es, w)
  {
  }

  lemma AttachOne(m: map<Entity, set<Window>>, es: set<Entity>, e: Entity, w: Window)
    ensures Attached(m, es + {e}, w) == Attached(m, es, w)[e := (if e in m then m[e] else {}) + {w}]
  {
    var a, b := Attached(m, es + {e}, w), Attached(m, es, w)[e := (if e in m then m[e] else {}) + {w}];
    assert a.Keys == b.Keys;
    forall f | f in a
      ensures a[f] == b[f]
    {
    }
  }

  lemma RedirectOne(m: map<Entity, Window>, es: set<Entity>, e: Entity, w: Window)
    ensures Redirected(m, es + {e}, w) == Redirected(m, es, w)[e := w]
  {
  }

  lemma AbandonOne(m: map<Entity, Window>, es: set<Entity>, e: Entity, w: Window)
    ensures Abandoned(m, es + {e}, w) == if e in m && m[e] == w then Abandoned(m, es, w) - {e} else Abandoned(m, es, w)
  {
  }

  lemma NoEntities(m: map<Entity, set<Window>>, c: map<Entity, Window>, w: Window)
    ensures Detached(m, {}, w) == m && Attached(m, {}, w) == m && Redirected(c, {}, w) == c && Abandoned(c, {}, w) == c
  {
    assert m.Keys + {} == m.Keys && c.Keys + {} == c.Keys;
    forall e | e in m
      ensures Attached(m, {}, w)[e] == m[e]
    {
      assert m[e] + {} == m[e];
    }
  }

  lemma RecordedAt(ix: Index, w: Window, es: set<Entity>, released: set<Entity>, e: Entity, v: Window)
    requires IndexOk(ix, released)
    ensures v in At(Recorded(ix, w, es).invalidators, e) <==> if v == w then e in es else v in At(ix.invalidators, e)
    ensures e in At(Recorded(ix, w, es).tracked, v) <==> if v == w then e in es else e in At(ix.tracked, v)
  {
    assert w in At(ix.invalidators, e) ==> e in At(ix.tracked, w);
  }

  lemma RecordKeepsIndex(ix: Index, w: Window, es: set<Entity>, released: set<Entity>)
    requires IndexOk(ix, released)
    ensures IndexOk(Recorded(ix, w, es), released)
  {
    forall e, v
      ensures v in At(Recorded(ix, w, es).invalidators, e) <==> if v == w then e in es else v in At(ix.invalidators, e)
      ensures e in At(Recorded(ix, w, es).tracked, v) <==> if v == w then e in es else e in At(ix.tracked, v)
    {
      RecordedAt(ix, w, es, released, e, v);
    }
  }

  /** A frame replaces what its window shows and nothing else. */
  lemma RecordReplacesFrame(ix: Index, w: Window, es: set<Entity>, e: Entity)
    ensures Showing(Recorded(ix, w, es), e) == Showing(ix, e) - {w} + (if e in es then {w} else {})
  {
  }

  lemma ForgettingKeepsIndex(ix: Index, e: Entity, released: set<Entity>)
    requires IndexOk(ix, released)
    ensures IndexOk(Forgotten(ix, e), released + {e})
    ensures At(Forgotten(ix, e).invalidators, e) == {} && e !in Forgotten(ix, e).current
    ensures forall f :: f != e ==> At(Forgotten(ix, e).invalidators, f) == At(ix.invalidators, f)
  {
    var ix' := Forgotten(ix, e);
    forall f, v
      ensures v in At(ix'.invalidators, f) <==> f != e && v in At(ix.invalidators, f)
    {
    }
    forall f, v
      ensures f in At(ix'.tracked, v) <==> f in At(ix.tracked, v)
    {
    }
  }

  /** After a window closes no invalidator mentions it, and it is the current window only of what it never showed. */
  lemma CloseKeepsIndex(ix: Index, w: Window, released: set<Entity>)
    requires IndexOk(ix, released)
    ensures var ix' := Closed(ix, w);
            && IndexOk(ix', released)
            && w !in ix'.tracked
            && (forall e :: At(ix'.invalidators, e) == At(ix.invalidators, e) - {w})
            && (forall e :: e in ix'.current && ix'.current[e] == w
                            <==> e in ix.current && ix.current[e] == w && e !in At(ix.tracked, w))
  {
    var ix' := Closed(ix, w);
    forall e
      ensures At(ix'.invalidators, e) == At(ix.invalidators, e) - {w}
    {
      assert w in At(ix.invalidators, e) ==> e in At(ix.tracked, w);
    }
    forall e, v
      ensures e in At(ix'.tracked, v) <==> v != w && e in At(ix.tracked, v)
    {
    }
  }

  /** If frames are recorded only for open windows, only open windows are ever invalidated. */
  lemma OnlyOpenWindowsAreInvalidated(ix: Index, released: set<Entity>, open: set<Window>, w: Window)
    requires IndexOk(ix, released) && ix.tracked.Keys <= open && w !in open
    ensures forall e :: w !in At(ix.invalidators, e)
  {
    forall e
      ensures w !in At(ix.invalidators, e)
    {
      assert e !in At(ix.tracked, w);
    }
  }

  /** `notify` takes an entity's invalidators out and puts them back. */
  lemma PuttingBackKeepsIndex(ix: Index, e: Entity, released: set<Entity>)
    requires IndexOk(ix, released)
    ensures IndexOk(ix.(invalidators := ix.invalidators[e := At(ix.invalidators, e)]), released)
  {
    var ix' := ix.(invalidators := ix.invalidators[e := At(ix.invalidators, e)]);
    forall f
      ensures At(ix'.invalidators, f) == At(ix.invalidators, f)
    {
    }
    forall v
      ensures At(ix'.tracked, v) == At(ix.tracked, v)
    {
    }
  }

  /** The filter in `notify` removes nothing, and what it leaves are the windows showing the entity. */
  lemma FilterKeepsShowing(ix: Index, e: Entity, released: set<Entity>)
    requires IndexOk(ix, released)
    ensures LiveInvalidators(ix, e) == At(ix.invalidators, e) <= Showing(ix, e)
    ensures e !in released ==> LiveInvalidators(ix, e) == Showing(ix, e)
  {
    forall w
      ensures w in Showing(ix, e) <==> e in At(ix.tracked, w)
      ensures w in LiveInvalidators(ix, e) <==> w in At(ix.invalidators, e)
    {
      assert w in At(ix.invalidators, e) ==> e in At(ix.tracked, w);
    }
    assert LiveInvalidators(ix, e) == At(ix.invalidators, e);
  }

  // ---------- Entities that are gone ----------

  /** Nothing invalidates the entities, and no window is their current one. */
  ghost predicate StaysForgotten(ix: Index, gone: set<Entity>) {
    forall e :: e in gone ==> At(ix.invalidators, e) == {} && e !in ix.current
  }

  /** A released entity is forgotten, and comes back only with a frame that uses it. */
  lemma ForgottenUntilRecorded(ix: Index, gone: set<Entity>, e: Entity, w: Window, es: set<Entity>)
    requires StaysForgotten(ix, gone)
    ensures StaysForgotten(Forgotten(ix, e), gone + {e})
    ensures StaysForgotten(Recorded(ix, w, es), gone - es)
    ensures StaysForgotten(Closed(ix, w), gone)
    ensures StaysForgotten(ix.(invalidators := ix.invalidators[e := At(ix.invalidators, e)]), gone)
  {
  }
}
