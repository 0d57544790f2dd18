/**
 The ownership tree of ucp/_libs/ucx_object.pyx: every object with a native handle has a finalizer
 that runs once, closes the registered children first and then releases the handle. An object is
 named by the order of its creation.
 */
module OwnershipTree {

  /** `alive`: the finalizer has not been called. `fails`: releasing the handle will raise. `raised`
      is history: the releases that did. */
  datatype Objects = Objects(
    alive: set<nat>, children: map<nat, seq<nat>>, released: seq<nat>, fails: set<nat>, raised: seq<nat>)

  function Children(children: map<nat, seq<nat>>, o: nat): seq<nat> {
    if o in children then children[o] else []
  }

  /** `UCXObject.close`; the result says whether it returned normally. */
  function Close(s: Objects, o: nat): (r: (Objects, bool))
    ensures r.0.alive <= s.alive && r.0.children == s.children && r.0.fails == s.fails
    decreases |s.alive|, 0
  {
    if o !in s.alive then (s, true)
    else
      var (t, ok) := CloseAll(s.(alive := s.alive - {o}), Children(s.children, o));
      if !ok then (t, false)
      else if o in s.fails then (t.(raised := t.raised + [o]), false)
      else (t.(released := t.released + [o]), true)
  }

  /** `_handle_finalizer_wrapper`: an exception leaves the remaining children alone. */
  function CloseAll(s: Objects, os: seq<nat>): (r: (Objects, bool))
    ensures r.0.alive <= s.alive && r.0.children == s.children && r.0.fails == s.fails
    decreases |s.alive|, 1, |os|
  {
    if os == [] then (s, true)
    else
      var (t, ok) := Close(s, os[0]);
      Shrinks(t.alive, s.alive);
      if ok then CloseAll(t, os[1..]) else (t, false)
  }

  lemma Shrinks(a: set<nat>, b: set<nat>)
    requires a <= b
    ensures |a| <= |b|
  {
    assert |b - a| == |b| - |a|;
  }

  /** Children are created after their parents. */
  ghost predicate Ordered(s: Objects) {
    forall p: nat, c: nat :: c in Children(s.children, p) ==> c > p
  }

  /** Nothing is released twice or while alive, and once an object has been released none of its
      children is alive or will be released. */
  ghost predicate Inv(s: Objects) {
    && Ordered(s)
    && (forall o :: o in s.released ==> o !in s.alive)
    && (forall i, j :: 0 <= i < j < |s.released| ==> s.released[i] != s.released[j])
    && (forall o: nat, c: nat :: o in s.released && c in Children(s.children, o) ==> c !in s.alive)
    && (forall i, j :: 0 <= i < j < |s.released| ==> s.released[j] !in Children(s.children, s.released[i]))
  }

  /** What a call adds to `released`. */
  ghost predicate Extends(s: Objects, t: Objects, least: nat) {
    && s.released <= t.released
    && forall i :: |s.released| <= i < |t.released| ==> t.released[i] in s.alive && t.released[i] >= least
  }

  lemma ExtendsTwice(s: Objects, t: Objects, u: Objects, least: nat, least': nat)
    requires Extends(s, t, least) && Extends(t, u, least') && t.alive <= s.alive && least' <= least
    ensures Extends(s, u, least')
  {
    assert forall i :: 0 <= i < |t.released| ==> u.released[i] == t.released[i];
  }

  lemma {:induction false} CloseInv(s: Objects, o: nat)
    requires Inv(s)
    ensures var (t, ok) := Close(s, o); Inv(t) && Extends(s, t, o) && o !in t.alive
    decreases |s.alive|, 0
  {
    if o in s.alive {
      var s1 := s.(alive := s.alive - {o});
      CloseAllInv(s1, Children(s.children, o), o + 1);
      var (t, ok) := CloseAll(s1, Children(s.children, o));
      if ok && o !in s.fails {
        ReleaseInv(s, t, o);
      }
    }
  }

  /** The handle of `o` is released after everything its children released. */
  lemma ReleaseInv(s: Objects, t: Objects, o: nat)
    requires Inv(s) && o in s.alive && Inv(t) && t.children == s.children && o !in t.alive
    requires Extends(s.(alive := s.alive - {o}), t, o + 1)
    requires forall c :: c in Children(s.children, o) ==> c !in t.alive
    ensures Inv(t.(released := t.released + [o]))
  {
    assert forall i :: 0 <= i < |s.released| ==> s.released[i] == t.released[i] && s.released[i] in s.released;
    forall i | 0 <= i < |t.released|
      ensures t.released[i] != o && o !in Children(t.children, t.released[i])
    {
      if i < |s.released| {
        assert s.released[i] == t.released[i];
      }
    }
  }

  lemma {:induction false} CloseAllInv(s: Objects, os: seq<nat>, least: nat)
    requires Inv(s) && forall o :: o in os ==> o >= least
    ensures var (t, ok) := CloseAll(s, os);
      && Inv(t) && Extends(s, t, least)
      && (ok ==> forall o :: o in os ==> o !in t.alive)
    decreases |s.alive|, 1, |os|
  {
    if os == [] {
    } else {
      CloseInv(s, os[0]);
      var (t, ok) := Close(s, os[0]);
      Shrinks(t.alive, s.alive);
      assert os[0] in os && forall o :: o in os[1..] ==> o in os;
      if ok {
        CloseAllInv(t, os[1..], least);
        ExtendsTwice(s, t, CloseAll(t, os[1..]).0, os[0], least);
      }
    }
  }

  // ---------------------------------------------------------------------------------------
  // Everything below a closed object is closed

  /** A closed object that is not being closed has no live child. */
  ghost predicate Sealed(s: Objects, busy: set<nat>) {
    forall p: nat, c: nat :: p !in s.alive && p !in busy && c in Children(s.children, p) ==> c !in s.alive
  }

  lemma {:induction false} CloseSeals(s: Objects, o: nat, busy: set<nat>)
    requires Sealed(s, busy) && Close(s, o).1
    ensures Sealed(Close(s, o).0, busy) && o !in Close(s, o).0.alive
    decreases |s.alive|, 0
  {
    if o in s.alive {
      CloseAllSeals(s.(alive := s.alive - {o}), Children(s.children, o), busy + {o});
    }
  }

  lemma {:induction false} CloseAllSeals(s: Objects, os: seq<nat>, busy: set<nat>)
    requires Sealed(s, busy) && CloseAll(s, os).1
    ensures var t := CloseAll(s, os).0; Sealed(t, busy) && forall o :: o in os ==> o !in t.alive
    decreases |s.alive|, 1, |os|
  {
    if os == [] {
    } else {
      CloseSeals(s, os[0], busy);
      var t := Close(s, os[0]).0;
      Shrinks(t.alive, s.alive);
      CloseAllSeals(t, os[1..], busy);
    }
  }

  /** A path of children. */
  ghost predicate IsPath(s: Objects, path: seq<nat>) {
    forall i :: 0 <= i < |path| - 1 ==> path[i + 1] in Children(s.children, path[i])
  }

  /** If nothing below was left open by an earlier failure, a `close()` that returns normally has
      closed every object below, at any depth. */
  lemma {:induction false} NothingLeftOpen(s: Objects, path: seq<nat>)
    requires Sealed(s, {}) && path != [] && Close(s, path[0]).1 && IsPath(s, path)
    ensures path[|path| - 1] !in Close(s, path[0]).0.alive
    decreases |path|
  {
    CloseSeals(s, path[0], {});
    if |path| > 1 {
      var before := path[..|path| - 1];
      NothingLeftOpen(s, before);
      assert path[|path| - 1] in Children(s.children, path[|path| - 2]);
    }
  }

  /** `close()` raises only if releasing some handle does. */
  lemma {:induction false} NoFailureNoException(s: Objects, o: nat)
    requires s.fails == {}
    ensures Close(s, o).1 && (o in s.alive ==> o in Close(s, o).0.released)
    decreases |s.alive|, 0
  {
    if o in s.alive {
      NoFailureNoExceptionAll(s.(alive := s.alive - {o}), Children(s.children, o));
    }
  }

  lemma {:induction false} NoFailureNoExceptionAll(s: Objects, os: seq<nat>)
    requires s.fails == {}
    ensures CloseAll(s, os).1
    decreases |s.alive|, 1, |os|
  {
    if os == [] {
    } else {
      NoFailureNoException(s, os[0]);
      Shrinks(Close(s, os[0]).0.alive, s.alive);
      NoFailureNoExceptionAll(Close(s, os[0]).0, os[1..]);
    }
  }

  /** From `s` to `t`, objects that were alive were closed; those released do not fail. */
  ghost predicate Releases(s: Objects, t: Objects) {
    && s.released <= t.released
    && (forall x :: x in t.released[|s.released|..] ==> x in s.alive && x !in s.fails)
  }

  /** From `s` to `t` one release was tried that raised. */
  ghost predicate RaisedOne(s: Objects, t: Objects) {
    && |t.raised| == |s.raised| + 1 && s.raised <= t.raised && s.released <= t.released
    && var x := t.raised[|s.raised|]; x in s.alive && x !in t.alive && x in s.fails && x !in t.released[|s.released|..]
  }

  /** `close()` raises exactly if it comes to a handle whose release raises. It stops there: nothing
      else is released any more, and the remaining children are left alone. If it returns normally,
      everything that it closed has been released. */
  lemma {:induction false} CloseRaisesIff(s: Objects, o: nat)
    ensures var (t, ok) := Close(s, o);
      && Releases(s, t)
      && (ok ==> t.raised == s.raised && forall x :: x in s.alive && x !in t.alive ==> x in t.released[|s.released|..])
      && (!ok ==> RaisedOne(s, t) && o !in t.released[|s.released|..])
    decreases |s.alive|, 0
  {
    if o in s.alive {
      var s1 := s.(alive := s.alive - {o});
      CloseAllRaisesIff(s1, Children(s.children, o));
      var (u, ok) := CloseAll(s1, Children(s.children, o));
      var n := |s.released|;
      assert (u.released + [o])[n..] == u.released[n..] + [o];
    }
  }

  lemma {:induction false} CloseAllRaisesIff(s: Objects, os: seq<nat>)
    ensures var (t, ok) := CloseAll(s, os);
      && Releases(s, t)
      && (ok ==> t.raised == s.raised && forall x :: x in s.alive && x !in t.alive ==> x in t.released[|s.released|..])
      && (!ok ==> RaisedOne(s, t))
    decreases |s.alive|, 1, |os|
  {
    if os == [] {
    } else {
      CloseRaisesIff(s, os[0]);
      var (t, ok) := Close(s, os[0]);
      Shrinks(t.alive, s.alive);
      if ok {
        CloseAllRaisesIff(t, os[1..]);
        var u := CloseAll(t, os[1..]).0;
        assert u.released[|s.released|..] == t.released[|s.released|..] + u.released[|t.released|..];
      }
    }
  }

  /** A failing child makes its owner's `close()` raise, and the children after it stay alive. */
  lemma RaisingChildStops(s: Objects, o: nat, i: nat)
    requires o in s.alive && i < |Children(s.children, o)|
    requires var s1 := s.(alive := s.alive - {o});
      && CloseAll(s1, Children(s.children, o)[..i]).1
      && !Close(CloseAll(s1, Children(s.children, o)[..i]).0, Children(s.children, o)[i]).1
    ensures var s1 := s.(alive := s.alive - {o});
      Close(s, o) == (Close(CloseAll(s1, Children(s.children, o)[..i]).0, Children(s.children, o)[i]).0, false)
  {
    CloseAllStops(s.(alive := s.alive - {o}), Children(s.children, o), i);
  }

  lemma {:induction false} CloseAllStops(s: Objects, os: seq<nat>, i: nat)
    requires i < |os| && CloseAll(s, os[..i]).1 && !Close(CloseAll(s, os[..i]).0, os[i]).1
    ensures CloseAll(s, os) == (Close(CloseAll(s, os[..i]).0, os[i]).0, false)
    decreases i
  {
    if i == 0 {
    } else {
      var t := Close(s, os[0]).0;
      assert os[..i][1..] == os[1..][..i - 1];
      CloseAllStops(t, os[1..], i - 1);
    }
  }

  // ---------------------------------------------------------------------------------------
  // Every run

  datatype Step =
    | Create(o: nat, fails: bool)          // an object whose handle nothing else owns
    | CreateChild(o: nat, parent: nat, fails: bool)
    | Closes(o: nat)                       // an explicit close, or garbage collection

  const NOTHING := Objects({}, map[], [], {}, [])

  /** A constructor asserts that the parent is initialized. */
  ghost predicate Possible(s: Objects, a: Step) {
    match a
    case Create(o, _) => New(s, o)
    case CreateChild(o, p, _) => New(s, o) && p in s.alive
    case Closes(_) => true
  }

  ghost predicate New(s: Objects, o: nat) {
    && o !in s.released && Children(s.children, o) == []
    && (forall p :: p in s.alive ==> p < o)
    && (forall p: nat, c: nat :: c in Children(s.children, p) ==> c < o)
  }

  function Next(s: Objects, a: Step): Objects {
    match a
    case Create(o, f) => s.(alive := s.alive + {o}, fails := s.fails + if f then {o} else {})
    case CreateChild(o, p, f) =>
      s.(alive := s.alive + {o}, fails := s.fails + (if f then {o} else {}),
         children := s.children[p := Children(s.children, p) + [o]])
    case Closes(o) => Close(s, o).0
  }

  lemma NextInv(s: Objects, a: Step)
    requires Inv(s) && Possible(s, a)
    ensures Inv(Next(s, a)) && s.released <= Next(s, a).released
  {
    match a
    case Closes(o) => CloseInv(s, o);
    case CreateChild(o, p, _) =>
      var t := Next(s, a);
      assert forall q: nat :: q != p ==> Children(t.children, q) == Children(s.children, q);
      assert p !in s.released;
      assert forall q: nat :: q in s.released ==> o !in Children(s.children, q);
      assert forall i :: 0 <= i < |s.released| ==> s.released[i] in s.released;
    case _ =>
      assert forall q: nat :: Children(Next(s, a).children, q) == Children(s.children, q);
  }

  ghost predicate Goes(s: Objects, steps: seq<Step>, t: Objects)
    decreases |steps|
  {
    if steps == [] then s == t else Possible(s, steps[0]) && Goes(Next(s, steps[0]), steps[1..], t)
  }

  lemma {:induction false} GoesInv(s: Objects, steps: seq<Step>, t: Objects)
    requires Inv(s) && Goes(s, steps, t)
    ensures Inv(t)
    decreases |steps|
  {
    if steps == [] {
    } else {
      NextInv(s, steps[0]);
      GoesInv(Next(s, steps[0]), steps[1..], t);
    }
  }

  /** In every run, whether or not handles fail to be released: no handle is released twice, and a
      released handle's children are neither alive nor released later. */
  lemma ReleaseOrder(steps: seq<Step>, s: Objects, i: nat, j: nat)
    requires Goes(NOTHING, steps, s) && i < j < |s.released|
    ensures s.released[i] != s.released[j]
    ensures s.released[j] !in Children(s.children, s.released[i])
    ensures forall c :: c in Children(s.children, s.released[i]) ==> c !in s.alive
  {
    GoesInv(NOTHING, steps, s);
    assert s.released[i] in s.released;
  }

  lemma {:induction false} SealedInEveryRun(s: Objects, steps: seq<Step>, t: Objects)
    requires Sealed(s, {}) && s.fails == {} && Goes(s, steps, t)
    requires forall a :: a in steps && !a.Closes? ==> !a.fails
    ensures Sealed(t, {}) && t.fails == {}
    decreases |steps|
  {
    if steps == [] {
    } else {
      var u := Next(s, steps[0]);
      assert steps[0] in steps && forall a :: a in steps[1..] ==> a in steps;
      match steps[0] {
        case Closes(o) =>
          NoFailureNoException(s, o);
          CloseSeals(s, o, {});
        case Create(o, _) =>
        case CreateChild(o, p, _) =>
          assert forall q: nat :: q != p ==> Children(u.children, q) == Children(s.children, q);
      }
      SealedInEveryRun(u, steps[1..], t);
    }
  }

  /** While no release has failed, `close()` closes everything below the object, at any depth. */
  lemma CloseReachesEverything(steps: seq<Step>, s: Objects, path: seq<nat>)
    requires Goes(NOTHING, steps, s) && forall a :: a in steps && !a.Closes? ==> !a.fails
    requires path != [] && IsPath(s, path)
    ensures Close(s, path[0]).1 && path[|path| - 1] !in Close(s, path[0]).0.alive
  {
    SealedInEveryRun(NOTHING, steps, s);
    NoFailureNoException(s, path[0]);
    NothingLeftOpen(s, path);
  }

  /** The objects themselves. */
  class UCXObjects {
    var alive: set<nat>
    var children: map<nat, seq<nat>>
    var released: seq<nat>
    var fails: set<nat>
    ghost var raised: seq<nat>

    ghost function Model(): Objects
      reads this
    {
      Objects(alive, children, released, fails, raised)
    }

    constructor ()
      ensures Model() == NOTHING
    {
      alive, children, released, fails, raised := {}, map[], [], {}, [];
    }

    /** `add_handle_finalizer`: the object is initialized; `fail` is whether releasing will raise. */
    method AddFinalizer(o: nat, fail: bool)
      requires Possible(Model(), Create(o, fail))
      modifies `alive, `fails
      ensures Model() == Next(old(Model()), Create(o, fail))
    {
      alive := alive + {o};
      fails := fails + if fail then {o} else {};
    }

    /** The constructor of an object that uses the handle of `p`. */
    method NewChild(o: nat, p: nat, fail: bool)
      requires Possible(Model(), CreateChild(o, p, fail))
      modifies `alive, `fails, `children
      ensures Model() == Next(old(Model()), CreateChild(o, p, fail))
    {
      AddFinalizer(o, fail);
      AddChild(p, o);
    }

    method AddChild(p: nat, o: nat)
      modifies `children
      ensures Model() == old(Model()).(children := old(children)[p := Children(old(children), p) + [o]])
    {
      children := children[p := (if p in children then children[p] else []) + [o]];
    }

    /** `close` and the finalizer it calls. */
    method CloseObject(o: nat) returns (ok: bool)
      modifies `alive, `released, `raised
      ensures (Model(), ok) == Close(old(Model()), o)
      decreases |alive|
    {
      if o !in alive {
        return true;
      }
      alive := alive - {o};
      ghost var start := Model();
      var os := if o in children then children[o] else [];
      var i := 0;
      while i < |os|
        invariant 0 <= i <= |os| && alive <= start.alive
        invariant CloseAll(Model(), os[i..]) == CloseAll(start, os)
      {
        Shrinks(alive, start.alive);
        ghost var before := Model();
        ok := CloseObject(os[i]);
        assert os[i..][1..] == os[i + 1..];
        if !ok {
          return;
        }
        i := i + 1;
      }
      if o in fails {
        raised := raised + [o];
        return false;
      }
      released := released + [o];
      ok := true;
    }
  }
}
