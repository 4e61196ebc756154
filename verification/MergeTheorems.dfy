/**
 What applying a payload guarantees: the order of a merged collection, what
 stays unchanged, idempotence, and that normalising the payload is harmless.
 */
module MergeTheorems {
  import opened Prelude
  import opened Merge

  // --------------------------------------------------------------------
  // Collections: payload order first, then the unmentioned members
  // --------------------------------------------------------------------

  /** The members of `rs` outside `drop`, each once, in order of first appearance. */
  function Out(rs: seq<Ref>, drop: set<Ref>): seq<Ref> {
    if rs == [] then []
    else if rs[0] in drop then Out(rs[1..], drop)
    else [rs[0]] + Out(rs[1..], drop + {rs[0]})
  }

  lemma {:induction false} OutAppend(x: seq<Ref>, y: seq<Ref>, drop: set<Ref>)
    ensures Out(x + y, drop) == Out(x, drop) + Out(y, drop + Elements(x))
  {
    if x == [] {
      assert x + y == y && drop + Elements(x) == drop;
    } else {
      assert (x + y)[1..] == x[1..] + y;
      var drop1 := if x[0] in drop then drop else drop + {x[0]};
      OutAppend(x[1..], y, drop1);
      assert drop1 + Elements(x[1..]) == drop + Elements(x);
    }
  }

  lemma {:induction false} OutOfOut(x: seq<Ref>, inner: set<Ref>, outer: set<Ref>)
    requires inner <= outer
    ensures Out(Out(x, inner), outer) == Out(x, outer)
  {
    if x != [] {
      if x[0] in inner {
        OutOfOut(x[1..], inner, outer);
      } else {
        var tail := Out(x[1..], inner + {x[0]});
        assert ([x[0]] + tail)[1..] == tail;
        OutOfOut(x[1..], inner + {x[0]}, outer + {x[0]});
        assert x[0] in outer ==> outer + {x[0]} == outer;
      }
    }
  }

  lemma {:induction false} OutSubset(x: seq<Ref>, drop: set<Ref>)
    requires Elements(x) <= drop
    ensures Out(x, drop) == []
  {
    if x != [] { OutSubset(x[1..], drop); }
  }

  /** Order, membership and absence of duplicates of what is appended. */
  lemma {:induction false} OutMembers(x: seq<Ref>, drop: set<Ref>)
    ensures Elements(Out(x, drop)) == Elements(x) - drop
    ensures NoDuplicates(Out(x, drop))
  {
    if x != [] {
      OutMembers(x[1..], if x[0] in drop then drop else drop + {x[0]});
      assert Elements(x) == {x[0]} + Elements(x[1..]);
      if x[0] !in drop {
        var tail := Out(x[1..], drop + {x[0]});
        assert x[0] !in tail by { assert x[0] !in Elements(tail); }
        assert Elements([x[0]] + tail) == {x[0]} + Elements(tail);
      }
    }
  }

  lemma {:induction false} ExtendIsOut(merged: seq<Ref>, existing: seq<Ref>)
    ensures Extend(merged, existing) == merged + Out(existing, Elements(merged))
    decreases |existing|
  {
    if existing != [] {
      var merged1 := if existing[0] in merged then merged else merged + [existing[0]];
      ExtendIsOut(merged1, existing[1..]);
      assert existing[0] !in merged ==> Elements(merged1) == Elements(merged) + {existing[0]};
    }
  }

  /** Removing one after another from a list without duplicates. */
  lemma {:induction false} RemoveFirstIsOut(rs: seq<Ref>, r: Ref)
    requires NoDuplicates(rs)
    ensures RemoveFirst(rs, r) == Out(rs, {r})
  {
    if rs != [] {
      RemoveFirstIsOut(rs[1..], r);
      if rs[0] == r {
        OutFresh(rs[1..], {r});
      } else {
        OutShift(rs[1..], {r}, rs[0]);
      }
    }
  }

  lemma {:induction false} OutFresh(rs: seq<Ref>, drop: set<Ref>)
    requires NoDuplicates(rs) && Elements(rs) !! drop
    ensures Out(rs, drop) == rs
  {
    if rs != [] {
      OutFresh(rs[1..], drop + {rs[0]});
    }
  }

  lemma {:induction false} OutShift(rs: seq<Ref>, drop: set<Ref>, x: Ref)
    requires x !in rs
    ensures Out(rs, drop) == Out(rs, drop + {x})
  {
    if rs != [] {
      OutShift(rs[1..], if rs[0] in drop then drop else drop + {rs[0]}, x);
      assert drop + {rs[0]} + {x} == drop + {x} + {rs[0]};
    }
  }

  lemma {:induction false} OutWiden(rs: seq<Ref>, drop: set<Ref>, more: set<Ref>)
    requires Elements(rs) !! more
    ensures Out(rs, drop) == Out(rs, drop + more)
  {
    if rs != [] {
      assert rs[0] in Elements(rs);
      assert Elements(rs[1..]) <= Elements(rs);
      var drop1 := if rs[0] in drop then drop else drop + {rs[0]};
      OutWiden(rs[1..], drop1, more);
      assert drop1 + more == if rs[0] in drop then drop + more else (drop + more) + {rs[0]};
    }
  }

  // --------------------------------------------------------------------
  // Unlinking one after another
  // --------------------------------------------------------------------

  function RemoveEach(rs: seq<Ref>, drops: seq<Ref>): seq<Ref>
    decreases |drops|
  {
    if drops == [] then rs else RemoveEach(RemoveFirst(rs, drops[0]), drops[1..])
  }

  lemma {:induction false} RemoveEachAppend(rs: seq<Ref>, x: seq<Ref>, y: seq<Ref>)
    ensures RemoveEach(rs, x + y) == RemoveEach(RemoveEach(rs, x), y)
    decreases |x|
  {
    if x == [] {
      assert x + y == y;
    } else {
      assert (x + y)[1..] == x[1..] + y;
      RemoveEachAppend(RemoveFirst(rs, x[0]), x[1..], y);
    }
  }

  lemma {:induction false} OutOfRemoved(rs: seq<Ref>, r: Ref, drop: set<Ref>)
    requires r in drop
    ensures Out(RemoveFirst(rs, r), drop) == Out(rs, drop)
  {
    if rs != [] && rs[0] != r {
      assert ([rs[0]] + RemoveFirst(rs[1..], r))[1..] == RemoveFirst(rs[1..], r);
      OutOfRemoved(rs[1..], r, if rs[0] in drop then drop else drop + {rs[0]});
    }
  }

  lemma {:induction false} OutOfRemovedEach(rs: seq<Ref>, drops: seq<Ref>, drop: set<Ref>)
    requires Elements(drops) <= drop
    ensures Out(RemoveEach(rs, drops), drop) == Out(rs, drop)
    decreases |drops|
  {
    if drops != [] {
      assert drops[0] in Elements(drops);
      assert Elements(drops[1..]) <= Elements(drops);
      OutOfRemoved(rs, drops[0], drop);
      OutOfRemovedEach(RemoveFirst(rs, drops[0]), drops[1..], drop);
    }
  }

  /** Elements outside `shared` occur at most once. */
  ghost predicate Once(rs: seq<Ref>, shared: set<Ref>) {
    forall i, j :: 0 <= i < j < |rs| && rs[i] == rs[j] ==> rs[i] in shared
  }

  lemma {:induction false} RemoveFirstOnce(rs: seq<Ref>, r: Ref, shared: set<Ref>)
    requires Once(rs, shared)
    ensures Once(RemoveFirst(rs, r), shared)
    ensures Elements(RemoveFirst(rs, r)) <= Elements(rs)
    ensures r !in shared ==> r !in RemoveFirst(rs, r)
  {
    if rs != [] {
      var rest := rs[1..];
      assert forall i :: 0 <= i < |rest| ==> rest[i] == rs[i + 1];
      RemoveFirstOnce(rest, r, shared);
      assert Elements(rs) == {rs[0]} + Elements(rest);
      if rs[0] == r {
        if r in rest {
          var i :| 0 <= i < |rest| && rest[i] == r;
          assert rs[0] == rs[i + 1];
        }
      } else {
        var tail := RemoveFirst(rest, r);
        forall j | 0 <= j < |tail| && tail[j] == rs[0] ensures rs[0] in shared {
          assert tail[j] in Elements(tail) && tail[j] in Elements(rest);
          var i :| 0 <= i < |rest| && rest[i] == rs[0];
          assert rs[i + 1] == rs[0];
        }
        assert Elements([rs[0]] + tail) == {rs[0]} + Elements(tail);
      }
    }
  }

  lemma {:induction false} RemoveEachOnce(rs: seq<Ref>, drops: seq<Ref>, shared: set<Ref>)
    requires Once(rs, shared)
    ensures Once(RemoveEach(rs, drops), shared)
    ensures Elements(RemoveEach(rs, drops)) <= Elements(rs)
    ensures Elements(RemoveEach(rs, drops)) !! Elements(drops) - shared
    decreases |drops|
  {
    if drops != [] {
      RemoveFirstOnce(rs, drops[0], shared);
      RemoveEachOnce(RemoveFirst(rs, drops[0]), drops[1..], shared);
      assert Elements(drops) == {drops[0]} + Elements(drops[1..]);
      assert drops[0] !in shared ==> drops[0] !in Elements(RemoveFirst(rs, drops[0]));
    }
  }

  /** Removing from a list in two parts without common elements. */
  lemma {:induction false} RemoveFirstParts(x: seq<Ref>, y: seq<Ref>, r: Ref)
    ensures RemoveFirst(x + y, r) == if r in x then RemoveFirst(x, r) + y else x + RemoveFirst(y, r)
  {
    if x == [] {
      assert x + y == y && x + RemoveFirst(y, r) == RemoveFirst(y, r);
    } else {
      assert (x + y)[1..] == x[1..] + y;
      if x[0] != r {
        RemoveFirstParts(x[1..], y, r);
        assert r in x <==> r in x[1..];
        var rest := RemoveFirst(x[1..] + y, r);
        assert RemoveFirst(x + y, r) == [x[0]] + rest && RemoveFirst(x, r) == [x[0]] + RemoveFirst(x[1..], r);
        hide RemoveFirst;
        Regroup([x[0]], if r in x then RemoveFirst(x[1..], r) else x[1..], if r in x then y else RemoveFirst(y, r));
        assert [x[0]] + x[1..] == x;
      }
    }
  }

  // --------------------------------------------------------------------
  // Idempotence of repeated merges
  // --------------------------------------------------------------------

  /** What a payload does to one attribute of one object: set it, or merge listed
      objects into a collection after unlinking others. */
  datatype Write = Put(c: Content) | MergeIn(rs: seq<Ref>, drops: seq<Ref>)

  function Act(w: Write, c: Option<Content>): Option<Content> {
    match w
    case Put(x) => Some(x)
    case MergeIn(rs, drops) => Some(Links(Extend(rs, RemoveEach(MembersOf(c), drops))))
  }

  function Fold(ws: seq<Write>, c: Option<Content>): Option<Content> {
    if ws == [] then c else Fold(ws[1..], Act(ws[0], c))
  }

  lemma {:induction false} FoldAppend(x: seq<Write>, y: seq<Write>, c: Option<Content>)
    ensures Fold(x + y, c) == Fold(y, Fold(x, c))
  {
    if x == [] {
      assert x + y == y;
    } else {
      assert (x + y)[1..] == x[1..] + y;
      FoldAppend(x[1..], y, Act(x[0], c));
    }
  }

  /** Every reference the merges bring in. */
  function Mentioned(ws: seq<Write>): set<Ref> {
    if ws == [] then {}
    else (match ws[0] case Put(_) => {} case MergeIn(rs, _) => Elements(rs)) + Mentioned(ws[1..])
  }

  /** Every reference the merges unlink. */
  function Dropped(ws: seq<Write>): set<Ref> {
    if ws == [] then {}
    else (match ws[0] case Put(_) => {} case MergeIn(_, drops) => Elements(drops)) + Dropped(ws[1..])
  }

  predicate OnlyMerges(ws: seq<Write>) {
    forall i :: 0 <= i < |ws| ==> ws[i].MergeIn?
  }

  /** Two states of a collection with the same front, whose distinct ends agree once
      everything still to be mentioned or unlinked is left out. */
  ghost predicate Alike(x: seq<Ref>, a: seq<Ref>, b: seq<Ref>, out: set<Ref>) {
    && NoDuplicates(a) && NoDuplicates(b)
    && Elements(a) !! Elements(x) && Elements(b) !! Elements(x)
    && Out(a, out) == Out(b, out)
  }

  lemma EndAfterRemoval(x: seq<Ref>, a: seq<Ref>, r: Ref)
    requires NoDuplicates(a) && Elements(a) !! Elements(x)
    ensures
      var x1, a1 := if r in x then RemoveFirst(x, r) else x, if r in x then a else RemoveFirst(a, r);
      && RemoveFirst(x + a, r) == x1 + a1
      && NoDuplicates(a1) && Elements(a1) !! Elements(x1) && Elements(a1) == Elements(a) - {r}
      && Elements(x1) <= Elements(x)
  {
    RemoveFirstParts(x, a, r);
    RemoveFirstOnce(x, r, Elements(x));
    RemoveFirstIsOut(a, r);
    OutMembers(a, {r});
    assert r in x <==> r in Elements(x);
    if r in x { assert r !in Elements(a); }
  }

  /** Unlinking the same objects keeps two states alike, and none is left in the ends. */
  lemma {:induction false} AlikeAfterRemovals(x: seq<Ref>, a: seq<Ref>, b: seq<Ref>, drops: seq<Ref>, out: set<Ref>)
    returns (x1: seq<Ref>, a1: seq<Ref>, b1: seq<Ref>)
    requires Alike(x, a, b, out) && Elements(drops) <= out
    ensures RemoveEach(x + a, drops) == x1 + a1 && RemoveEach(x + b, drops) == x1 + b1
    ensures Alike(x1, a1, b1, out) && Elements(x1) <= Elements(x)
    ensures Elements(a1) <= Elements(a) - Elements(drops) && Elements(b1) <= Elements(b) - Elements(drops)
    decreases |drops|
  {
    if drops == [] {
      x1, a1, b1 := x, a, b;
    } else {
      var r := drops[0];
      assert Elements(drops) == {r} + Elements(drops[1..]);
      EndAfterRemoval(x, a, r);
      EndAfterRemoval(x, b, r);
      OutOfRemoved(a, r, out);
      OutOfRemoved(b, r, out);
      x1, a1, b1 := AlikeAfterRemovals(if r in x then RemoveFirst(x, r) else x,
                                       if r in x then a else RemoveFirst(a, r),
                                       if r in x then b else RemoveFirst(b, r), drops[1..], out);
    }
  }

  /** Merging a list into a state with front `x` and distinct end `a`. */
  lemma ExtendParts(rs: seq<Ref>, x: seq<Ref>, a: seq<Ref>)
    requires NoDuplicates(a) && Elements(a) !! Elements(x)
    ensures
      var x1, a1 := rs + Out(x, Elements(rs)), Out(a, Elements(rs));
      && Extend(rs, x + a) == x1 + a1
      && NoDuplicates(a1) && Elements(a1) !! Elements(x1) && Elements(a1) <= Elements(a)
  {
    hide Out, Extend;
    var x1, a1 := rs + Out(x, Elements(rs)), Out(a, Elements(rs));
    ExtendIsOut(rs, x + a);
    Regroup(rs, Out(x, Elements(rs)), a1);
    OutAppend(x, a, Elements(rs));
    OutWiden(a, Elements(rs), Elements(x));
    OutMembers(a, Elements(rs));
    OutMembers(x, Elements(rs));
    assert Elements(x1) <= Elements(rs) + Elements(x) by {
      assert forall r :: r in x1 ==> r in rs || r in Out(x, Elements(rs));
      assert forall r :: r in Out(x, Elements(rs)) ==> r in Elements(Out(x, Elements(rs)));
    }
  }

  lemma OutNested(a: seq<Ref>, inner: set<Ref>, outer: set<Ref>)
    ensures Out(Out(a, inner), outer) == Out(a, inner + outer)
  {
    OutMembers(a, inner);
    OutWiden(Out(a, inner), outer, inner - outer);
    OutOfOut(a, inner, inner + outer);
    assert outer + (inner - outer) == inner + outer;
    assert Elements(Out(a, inner)) !! inner - outer;
  }

  lemma AlikeAfterMerge(rs: seq<Ref>, x: seq<Ref>, a: seq<Ref>, b: seq<Ref>, out: set<Ref>)
    requires Alike(x, a, b, Elements(rs) + out)
    ensures Alike(rs + Out(x, Elements(rs)), Out(a, Elements(rs)), Out(b, Elements(rs)), out)
    ensures Extend(rs, x + a) == rs + Out(x, Elements(rs)) + Out(a, Elements(rs))
    ensures Extend(rs, x + b) == rs + Out(x, Elements(rs)) + Out(b, Elements(rs))
  {
    ExtendParts(rs, x, a);
    ExtendParts(rs, x, b);
    OutNested(a, Elements(rs), out);
    OutNested(b, Elements(rs), out);
  }

  /** Alike states end up equal. */
  lemma {:induction false} FoldAlike(ws: seq<Write>, x: seq<Ref>, a: seq<Ref>, b: seq<Ref>)
    requires OnlyMerges(ws) && Alike(x, a, b, Mentioned(ws) + Dropped(ws))
    ensures Fold(ws, Some(Links(x + a))) == Fold(ws, Some(Links(x + b)))
  {
    if ws == [] {
      assert Mentioned(ws) + Dropped(ws) == {};
      OutFresh(a, {});
      OutFresh(b, {});
    } else {
      var MergeIn(rs, drops) := ws[0];
      var rest, later := ws[1..], Mentioned(ws[1..]) + Dropped(ws[1..]);
      var out := Mentioned(ws) + Dropped(ws);
      assert out == Elements(drops) + (Elements(rs) + later);
      var x1, a1, b1 := AlikeAfterRemovals(x, a, b, drops, out);
      OutWiden(a1, Elements(rs) + later, Elements(drops));
      OutWiden(b1, Elements(rs) + later, Elements(drops));
      assert (Elements(rs) + later) + Elements(drops) == out;
      AlikeAfterMerge(rs, x1, a1, b1, later);
      FoldAlike(rest, rs + Out(x1, Elements(rs)), Out(a1, Elements(rs)), Out(b1, Elements(rs)));
    }
  }

  /** What the first merge unlinks is then gone, unless a later merge unlinks it or
      some merge mentions it. A value that is set in between makes this immaterial. */
  ghost predicate Clears(ws: seq<Write>, c: Option<Content>) {
    ws != [] && OnlyMerges(ws) ==>
      forall r :: r in ws[0].drops && multiset(MembersOf(c))[r] > multiset(ws[0].drops)[r] ==>
        r in Mentioned(ws) || r in Dropped(ws[1..])
  }

  lemma {:induction false} RemoveFirstCount(rs: seq<Ref>, r: Ref)
    ensures multiset(RemoveFirst(rs, r)) == multiset(rs) - multiset{r}
  {
    if rs != [] {
      assert rs == [rs[0]] + rs[1..];
      if rs[0] != r {
        RemoveFirstCount(rs[1..], r);
        assert multiset(RemoveFirst(rs, r)) == multiset{rs[0]} + (multiset(rs[1..]) - multiset{r});
      }
    }
  }

  /** A member is left exactly when it is there more often than it is unlinked. */
  lemma {:induction false} LeftIff(rs: seq<Ref>, drops: seq<Ref>, r: Ref)
    ensures r in RemoveEach(rs, drops) <==> multiset(rs)[r] > multiset(drops)[r]
    decreases |drops|
  {
    if drops == [] {
      assert r in rs <==> r in multiset(rs);
    } else {
      assert drops == [drops[0]] + drops[1..];
      RemoveFirstCount(rs, drops[0]);
      LeftIff(RemoveFirst(rs, drops[0]), drops[1..], r);
    }
  }

  /** The first merge leaves the members that no merge mentions or unlinks. */
  lemma FirstMerge(rs: seq<Ref>, drops: seq<Ref>, m: seq<Ref>, later: set<Ref>)
    requires forall r :: r in drops && r in RemoveEach(m, drops) ==> r in Elements(rs) + later
    ensures
      var a := Out(RemoveEach(m, drops), Elements(rs));
      && NoDuplicates(a) && Elements(a) !! Elements(rs)
      && Extend(rs, RemoveEach(m, drops)) == rs + a
      && Out(a, later) == Out(m, Elements(rs) + later + Elements(drops))
  {
    var left, out := RemoveEach(m, drops), Elements(rs) + later;
    ExtendIsOut(rs, left);
    OutMembers(left, Elements(rs));
    OutNested(left, Elements(rs), later);
    OutOfRemovedEach(m, drops, out + Elements(drops));
    OutWiden(left, out, Elements(drops) - out);
    assert out + (Elements(drops) - out) == out + Elements(drops);
  }

  lemma ClearsFirst(ws: seq<Write>, c: Option<Content>)
    requires ws != [] && OnlyMerges(ws)
    ensures Clears(ws, c) <==>
            var MergeIn(rs, drops) := ws[0];
            forall r :: r in drops && r in RemoveEach(MembersOf(c), drops) ==>
              r in Elements(rs) + (Mentioned(ws[1..]) + Dropped(ws[1..]))
  {
    forall r ensures r in RemoveEach(MembersOf(c), ws[0].drops) <==>
                     multiset(MembersOf(c))[r] > multiset(ws[0].drops)[r] {
      LeftIff(MembersOf(c), ws[0].drops, r);
    }
  }

  /** The outcome depends only on the old members that are neither mentioned nor unlinked. */
  lemma FoldDependsOnRest(ws: seq<Write>, c: Option<Content>, d: Option<Content>)
    requires ws != [] && OnlyMerges(ws) && Clears(ws, c) && Clears(ws, d)
    requires
      var out := Mentioned(ws) + Dropped(ws);
      Out(MembersOf(c), out) == Out(MembersOf(d), out)
    ensures Fold(ws, c) == Fold(ws, d)
  {
    hide Clears;
    var MergeIn(rs, drops) := ws[0];
    var rest, later := ws[1..], Mentioned(ws[1..]) + Dropped(ws[1..]);
    var m, n := MembersOf(c), MembersOf(d);
    ClearsFirst(ws, c);
    ClearsFirst(ws, d);
    FirstMerge(rs, drops, m, later);
    FirstMerge(rs, drops, n, later);
    assert Elements(rs) + later + Elements(drops) == Mentioned(ws) + Dropped(ws);
    FoldAlike(rest, rs, Out(RemoveEach(m, drops), Elements(rs)), Out(RemoveEach(n, drops), Elements(rs)));
  }

  lemma {:induction false} FoldKeepsRest(ws: seq<Write>, c: Option<Content>, out: set<Ref>)
    requires OnlyMerges(ws) && Mentioned(ws) + Dropped(ws) <= out
    ensures Out(MembersOf(Fold(ws, c)), out) == Out(MembersOf(c), out)
  {
    if ws != [] {
      var MergeIn(rs, drops) := ws[0];
      var m := MembersOf(c);
      var left := RemoveEach(m, drops);
      ExtendIsOut(rs, left);
      OutAppend(rs, Out(left, Elements(rs)), out);
      OutSubset(rs, out);
      assert out + Elements(rs) == out;
      OutOfOut(left, Elements(rs), out);
      OutOfRemovedEach(m, drops, out);
      FoldKeepsRest(ws[1..], Act(ws[0], c), out);
    }
  }

  /** Only what a merge mentions can be there twice afterwards. */
  lemma {:induction false} FoldOnce(ws: seq<Write>, c: Option<Content>)
    requires ws != [] && OnlyMerges(ws)
    ensures Once(MembersOf(Fold(ws, c)), Mentioned(ws))
  {
    var MergeIn(rs, drops) := ws[0];
    if |ws| == 1 {
      assert ws[1..] == [];
      var a := Out(RemoveEach(MembersOf(c), drops), Elements(rs));
      ExtendIsOut(rs, RemoveEach(MembersOf(c), drops));
      OutMembers(RemoveEach(MembersOf(c), drops), Elements(rs));
      OnceParts(rs, a);
      assert Mentioned(ws) == Elements(rs);
    } else {
      FoldOnce(ws[1..], Act(ws[0], c));
    }
  }

  lemma OnceParts(rs: seq<Ref>, a: seq<Ref>)
    requires NoDuplicates(a) && Elements(a) !! Elements(rs)
    ensures Once(rs + a, Elements(rs))
  {
    var z := rs + a;
    forall i, j | |rs| <= i < j < |z| ensures z[i] != z[j] {
      assert z[i] == a[i - |rs|] && z[j] == a[j - |rs|];
    }
    forall i | 0 <= i < |rs| ensures z[i] in Elements(rs) {
      assert z[i] == rs[i];
    }
  }

  lemma {:induction false} FoldAfterPut(ws: seq<Write>, i: nat, c: Option<Content>, d: Option<Content>)
    requires i < |ws| && ws[i].Put?
    ensures Fold(ws, c) == Fold(ws, d)
  {
    if i > 0 { FoldAfterPut(ws[1..], i - 1, Act(ws[0], c), Act(ws[0], d)); }
  }

  /** A state in which only mentioned objects are repeated is cleared. */
  lemma OnceClears(ws: seq<Write>, c: Option<Content>)
    requires Once(MembersOf(c), Mentioned(ws))
    ensures Clears(ws, c)
  {
    if ws != [] && OnlyMerges(ws) {
      var drops := ws[0].drops;
      RemoveEachOnce(MembersOf(c), drops, Mentioned(ws));
      forall r | r in drops && multiset(MembersOf(c))[r] > multiset(drops)[r] ensures r in Mentioned(ws) {
        LeftIff(MembersOf(c), drops, r);
        assert r in Elements(RemoveEach(MembersOf(c), drops)) && r in Elements(drops);
      }
    }
  }

  /** An object that no merge mentions or unlinks stays, or stays out. */
  lemma {:induction false} FoldKeepsOthers(ws: seq<Write>, c: Option<Content>, r: Ref)
    requires OnlyMerges(ws) && r !in Mentioned(ws) && r !in Dropped(ws)
    ensures r in MembersOf(Fold(ws, c)) <==> r in MembersOf(c)
  {
    if ws != [] {
      MergeKeepsOthers(ws[0].rs, ws[0].drops, MembersOf(c), r);
      assert r !in Elements(ws[0].drops);
      LeftIff(MembersOf(c), ws[0].drops, r);
      assert r in MembersOf(c) <==> r in multiset(MembersOf(c));
      FoldKeepsOthers(ws[1..], Act(ws[0], c), r);
    }
  }

  lemma MergeKeepsOthers(rs: seq<Ref>, drops: seq<Ref>, m: seq<Ref>, r: Ref)
    requires r !in Elements(rs)
    ensures r in Extend(rs, RemoveEach(m, drops)) <==> r in RemoveEach(m, drops)
  {
    var left := RemoveEach(m, drops);
    ExtendIsOut(rs, left);
    OutMembers(left, Elements(rs));
    assert r in Out(left, Elements(rs)) <==> r in Elements(Out(left, Elements(rs)));
  }

  /** Performing a list of writes twice is performing it once exactly when the first
      merge leaves nothing that it unlinks and that no other write decides about. */
  lemma FoldTwiceIff(ws: seq<Write>, c: Option<Content>)
    ensures Fold(ws, Fold(ws, c)) == Fold(ws, c) <==> Clears(ws, c)
  {
    if ws == [] {
    } else if OnlyMerges(ws) {
      FoldOnce(ws, c);
      OnceClears(ws, Fold(ws, c));
      if Clears(ws, c) {
        FoldKeepsRest(ws, c, Mentioned(ws) + Dropped(ws));
        FoldDependsOnRest(ws, Fold(ws, c), c);
      } else {
        Lingers(ws, c);
      }
    } else {
      var i :| 0 <= i < |ws| && ws[i].Put?;
      FoldAfterPut(ws, i, Fold(ws, c), c);
    }
  }

  /** The first time such an object is left, the second time it is unlinked. */
  lemma Lingers(ws: seq<Write>, c: Option<Content>)
    requires ws != [] && OnlyMerges(ws) && !Clears(ws, c)
    ensures Fold(ws, Fold(ws, c)) != Fold(ws, c)
  {
    hide Fold;
    var MergeIn(rs, drops) := ws[0];
    var d := Fold(ws, c);
    var r :| r in drops && multiset(MembersOf(c))[r] > multiset(drops)[r]
             && r !in Mentioned(ws) && r !in Dropped(ws[1..]);
    LeftAfter(ws, c, r);
    LeftAfter(ws, d, r);
    LeftIff(MembersOf(c), drops, r);
    FoldOnce(ws, c);
    RemoveEachOnce(MembersOf(d), drops, Mentioned(ws));
    assert r in Elements(drops);
    assert r !in Elements(RemoveEach(MembersOf(d), drops));
  }

  lemma LeftAfter(ws: seq<Write>, c: Option<Content>, r: Ref)
    requires ws != [] && OnlyMerges(ws) && r !in Mentioned(ws) && r !in Dropped(ws[1..])
    ensures r in MembersOf(Fold(ws, c)) <==> r in RemoveEach(MembersOf(c), ws[0].drops)
  {
    MergeKeepsOthers(ws[0].rs, ws[0].drops, MembersOf(c), r);
    FoldKeepsOthers(ws[1..], Act(ws[0], c), r);
  }
}
