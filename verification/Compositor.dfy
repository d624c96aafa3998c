/** The compositor's window table, updated in place; each method is the operation of Stacking. */
module Compositor {

  import opened StableSort
  import opened Stacking

  // ---------------------------------------------------------------- which lists a restack reaches

  lemma {:induction false} BelowChild(d: Desk, q: Id, p: Id)
    requires Shape(d) && p in d.children && Below(d.parent, q, p) && q != p
    ensures exists c :: c in d.children[p] && Below(d.parent, q, c)
    decreases q
  {
    var r := d.parent[q];
    assert ParentOk(d, q);
    if r == p {
      assert q in d.children[p] && Below(d.parent, q, q);
    } else {
      BelowChild(d, r, p);
      var c :| c in d.children[p] && Below(d.parent, r, c);
      assert Below(d.parent, q, c);
    }
  }

  lemma {:induction false} ChildBelow(d: Desk, q: Id, c: Id, p: Id)
    requires ChildOk(d, p, c) && Below(d.parent, q, c)
    ensures Below(d.parent, q, p)
    decreases q
  {
    if q != c {
      ChildBelow(d, d.parent[q], c, p);
    } else {
      assert Below(d.parent, p, p);
    }
  }

  /** Reached by a restack of `p` that has dealt with the first `i` of its children. */
  ghost predicate Reached(parent: map<Id, Id>, q: Id, p: Id, s: seq<Id>, i: nat) {
    q == p || exists k :: 0 <= k < i && k < |s| && Below(parent, q, s[k])
  }

  ghost predicate Progress(d: Desk, lists: map<Id, seq<Id>>, p: Id, s: seq<Id>, i: nat) {
    && (forall q :: q in lists <==> q in d.children)
    && forall q :: q in lists ==>
         lists[q] == if Reached(d.parent, q, p, s, i) then Stacked(d.pos, d.children[q]) else d.children[q]
  }

  lemma ProgressStart(d: Desk, p: Id, s: seq<Id>)
    requires p in d.children && s == Stacked(d.pos, d.children[p])
    ensures Progress(d, d.children[p := s], p, s, 0)
  {
  }

  lemma StackedTwice(pos: map<Id, Pos>, s: seq<Id>)
    ensures Stacked(pos, Stacked(pos, s)) == Stacked(pos, s)
  {
    HigherIsStrict(pos);
    SortTwice(Higher(pos), s);
  }

  lemma ReachedNext(parent: map<Id, Id>, q: Id, p: Id, s: seq<Id>, i: nat)
    requires i < |s|
    ensures Reached(parent, q, p, s, i + 1) <==> Reached(parent, q, p, s, i) || Below(parent, q, s[i])
  {
  }

  lemma ProgressStep(d: Desk, lists: map<Id, seq<Id>>, p: Id, s: seq<Id>, i: nat)
    requires Progress(d, lists, p, s, i) && i < |s|
    ensures Progress(d, Lists(Desk(d.last, d.pos, d.parent, lists), s[i]), p, s, i + 1)
  {
    hide Stacked, Reached, Below;
    var after := Lists(Desk(d.last, d.pos, d.parent, lists), s[i]);
    forall q | q in lists
      ensures after[q] == if Reached(d.parent, q, p, s, i + 1) then Stacked(d.pos, d.children[q]) else d.children[q]
    {
      ReachedNext(d.parent, q, p, s, i);
      StackedTwice(d.pos, d.children[q]);
    }
  }

  lemma ProgressShape(d: Desk, lists: map<Id, seq<Id>>, p: Id, s: seq<Id>, i: nat)
    requires Shape(d) && Progress(d, lists, p, s, i)
    ensures Shape(Desk(d.last, d.pos, d.parent, lists))
  {
    assert Resorted(d, lists);
    ShapeKept(d, lists);
  }

  lemma ProgressStop(d: Desk, lists: map<Id, seq<Id>>, p: Id, s: seq<Id>)
    requires Shape(d) && p in d.children && s == Stacked(d.pos, d.children[p])
    requires Progress(d, lists, p, s, |s|)
    ensures lists == Lists(d, p)
  {
    hide Stacked, Below;
    StackedMembership(d, p);
    forall q | q in lists ensures Reached(d.parent, q, p, s, |s|) <==> Below(d.parent, q, p) {
      if Below(d.parent, q, p) && q != p {
        BelowChild(d, q, p);
        var c :| c in d.children[p] && Below(d.parent, q, c);
        assert c in s;
      }
      if Reached(d.parent, q, p, s, |s|) && q != p {
        var k :| 0 <= k < |s| && Below(d.parent, q, s[k]);
        assert s[k] in s;
        ChildBelow(d, q, s[k], p);
      }
      BelowSelf(d.parent, p);
    }
    assert lists.Keys == Lists(d, p).Keys;
  }

  lemma BelowSelf(parent: map<Id, Id>, p: Id)
    ensures Below(parent, p, p)
  {
  }

  lemma StackedMembership(d: Desk, p: Id)
    requires Shape(d) && p in d.children
    ensures forall c :: c in Stacked(d.pos, d.children[p]) ==> c in d.children[p] && ChildOk(d, p, c)
    ensures forall c :: c in d.children[p] ==> c in Stacked(d.pos, d.children[p])
  {
    StackedOk(d, p, d.children[p]);
  }

  // ---------------------------------------------------------------- the server

  class Server {
    var last: Id
    var pos: map<Id, Pos>
    var parent: map<Id, Id>
    var children: map<Id, seq<Id>>

    ghost function Abs(): Desk
      reads this
    {
      Desk(last, pos, parent, children)
    }

    constructor ()
      ensures Abs() == EMPTY_DESK && Inv(Abs())
    {
      last, pos, parent, children := 0, map[], map[], map[];
    }

    /** list_sort on one list of children. */
    method SortChildren(p: Id) returns (s: seq<Id>)
      requires p in children
      modifies `children
      ensures s == Stacked(pos, old(children)[p]) && children == old(children)[p := s]
    {
      var list := children[p];
      var a := new Id[|list|](i requires 0 <= i < |list| => list[i]);
      assert a[..] == list;
      ListSort(a, Higher(pos));
      s := a[..];
      children := children[p := s];
    }

    method Restack(p: Id)
      requires Shape(Abs()) && p in children
      modifies `children
      ensures Abs() == Restacked(old(Abs()), p) && Shape(Abs())
      decreases last - p
    {
      hide Lists, Progress, Shape, Stacked;
      ghost var d := Abs();
      var s := SortChildren(p);
      ProgressStart(d, p, s);
      StackedMembership(d, p);
      for i := 0 to |s|
        invariant Progress(d, children, p, s, i)
      {
        ProgressShape(d, children, p, s, i);
        ProgressStep(d, children, p, s, i);
        assert s[i] in s && ChildOk(d, p, s[i]);
        ProgressKnown(d, children, p, s, i, s[i]);
        Restack(s[i]);
      }
      ProgressStop(d, children, p, s);
      ProgressShape(d, children, p, s, |s|);
    }

    method Raise(w: Id)
      requires Inv(Abs()) && w in pos
      modifies this
      ensures Inv(Abs()) && Abs() == Stacking.Raise(old(Abs()), w)
      decreases 1
    {
      hide Inv, Stacking.Raise, Place, Move, Wrapped;
      RaiseKeeps(Abs(), w);
      RaiseCases(Abs(), w);
      if w !in parent {
        return;
      }
      var siblings := children[parent[w]];
      var top := siblings[|siblings| - 1];
      if top == w {
        return;
      }
      var highest: int := Z(pos, top);
      MoveTo(w, Pos(pos[w].x, pos[w].y, Wrapped(highest + 1)), ONLY_Z);
    }

    method MoveTo(w: Id, to: Pos, m: Mask)
      requires Inv(Abs()) && w in pos
      modifies this
      ensures Inv(Abs()) && Abs() == Move(old(Abs()), w, to, m)
      decreases if m.raise || m.sunk then 2 else 0
    {
      hide Inv, Shape, Restacked, Stacking.Raise, OnlyMoves;
      var here := pos[w];
      if here == to {
        return;
      }
      PlaceKeeps(Abs(), w, to, m);
      PlaceThere(Abs(), w, to, m);
      MoveShape(Abs(), w, Pos(if m.x then to.x else here.x, if m.y then to.y else here.y,
          if m.z then to.z else here.z));
      if m.x {
        pos := pos[w := Pos(to.x, pos[w].y, pos[w].z)];
      }
      if m.y {
        pos := pos[w := Pos(pos[w].x, to.y, pos[w].z)];
      }
      if m.z {
        pos := pos[w := Pos(pos[w].x, pos[w].y, to.z)];
      }
      assert pos == old(pos)[w := Pos(if m.x then to.x else here.x, if m.y then to.y else here.y,
          if m.z then to.z else here.z)];
      if m.z && w in parent {
        Restack(parent[w]);
      }
      assert Abs() == Place(old(Abs()), w, to, m);
      if m.raise {
        Raise(w);
      }
      if m.sunk {
        Raise(w);
      }
    }

    method CreateWindow(par: Id, x: Int32, y: Int32)
      requires Inv(Abs())
      modifies this
      ensures Inv(Abs()) && Abs() == Create(old(Abs()), par, x, y)
    {
      hide Inv, Shape, Restacked, Create;
      CreateKeeps(Abs(), par, x, y);
      CreateCases(Abs(), par, x, y);
      var known := par in children;
      last := last + 1;
      var w := last;
      pos := pos[w := Pos(x, y, 0)];
      children := children[w := []];
      if known {
        parent := parent[w := par];
        children := children[par := children[par] + [w]];
        assert Abs() == Attached(old(Abs()), par, x, y);
        Restack(par);
      }
    }
  }

  lemma CreateCases(d: Desk, par: Id, x: Int32, y: Int32)
    requires Inv(d)
    ensures par in d.pos <==> par in d.children
    ensures d.last + 1 !in d.children && d.last + 1 !in d.parent && Shape(Attached(d, par, x, y))
    ensures par in d.children ==> par != d.last + 1 && par in Attached(d, par, x, y).children
    ensures Create(d, par, x, y)
            == if par in d.children then Restacked(Attached(d, par, x, y), par) else Attached(d, par, x, y)
  {
    assert Known(d, par) && Known(d, d.last + 1) && ParentOk(d, d.last + 1);
    assert d.last + 1 !in d.pos by { CreateKeeps(d, par, x, y); }
    AttachedShape(d, par, x, y);
  }

  lemma ProgressKnown(d: Desk, lists: map<Id, seq<Id>>, p: Id, s: seq<Id>, i: nat, c: Id)
    requires Shape(d) && Progress(d, lists, p, s, i) && ChildOk(d, p, c)
    ensures c in lists && p < c <= d.last
  {
    assert Known(d, c);
  }

  /** compose_sv_raise goes through compose_sv_move. */
  lemma RaiseCases(d: Desk, w: Id)
    requires Inv(d) && w in d.pos
    ensures w !in d.parent ==> Stacking.Raise(d, w) == d
    ensures w in d.parent ==> d.parent[w] in d.children && d.children[d.parent[w]] == Siblings(d, w) != []
    ensures w in d.parent && Top(d, w) == w ==> Stacking.Raise(d, w) == d
    ensures w in d.parent && Top(d, w) != w ==> Stacking.Raise(d, w) == Move(d, w, RaisePos(d, w), ONLY_Z)
  {
    assert ParentOk(d, w);
  }

  lemma PlaceThere(d: Desk, w: Id, to: Pos, m: Mask)
    requires w in d.pos
    ensures w in Place(d, w, to, m).pos
  {
  }

  lemma MoveShape(d: Desk, w: Id, to: Pos)
    requires Inv(d) && w in d.pos
    ensures Shape(WithPos(d, w, to)) && (w in d.parent ==> d.parent[w] in d.children)
  {
    WithPosShape(d, w, to);
    assert ParentOk(d, w);
  }
}
