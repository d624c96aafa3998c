/** Where windows stand after a request: each coordinate that the mask names is taken from the request, the
    others stay, and nobody else moves. */
module WindowPlaces {

  import opened Basics
  import opened StableSort
  import opened Stacking

  lemma RaiseStands(d: Desk, w: Id)
    requires w in d.pos
    ensures var p := Raise(d, w).pos[w];
            p.x == d.pos[w].x && p.y == d.pos[w].y
    ensures Raise(d, w).pos == d.pos[w := Raise(d, w).pos[w]]
    ensures Raise(d, w).pos[w].z == d.pos[w].z
            || (Siblings(d, w) != [] && Raise(d, w).pos[w].z == Wrapped(Z(d.pos, Top(d, w)) + 1))
  {
    hide Lists;
    assert d.pos[w := d.pos[w]] == d.pos;
  }

  /** A move that is not to the very place the window stands at. */
  lemma MoveLands(d: Desk, w: Id, to: Pos, m: Mask)
    requires w in d.pos && d.pos[w] != to
    ensures w in Move(d, w, to, m).pos
    ensures var p := Move(d, w, to, m).pos[w];
            && p.x == (if m.x then to.x else d.pos[w].x)
            && p.y == (if m.y then to.y else d.pos[w].y)
            && (!m.raise && !m.sunk ==> p.z == if m.z then to.z else d.pos[w].z)
    ensures Move(d, w, to, m).pos == d.pos[w := Move(d, w, to, m).pos[w]]
  {
    hide Raise, Lists;
    var placed := Place(d, w, to, m);
    RaiseStands(placed, w);
    var raised := if m.raise then Raise(placed, w) else placed;
    RaiseStands(raised, w);
  }

  /** A move to the very place it stands at does nothing, whatever flags come with it. */
  lemma MoveStays(d: Desk, w: Id, m: Mask)
    requires w in d.pos
    ensures Move(d, w, d.pos[w], m) == d
  {
  }

  /** The flag that asks to sink a window raises it. */
  lemma SunkRaises(d: Desk, w: Id, to: Pos, x: bool, y: bool, z: bool)
    requires w in d.pos
    ensures Move(d, w, to, Mask(x, y, z, false, true)) == Move(d, w, to, Mask(x, y, z, true, false))
  {
    hide Raise, Lists;
  }

  /** Without the z bit and the raise flags no list changes order. */
  lemma SidewaysKeepsOrder(d: Desk, w: Id, to: Pos, m: Mask)
    requires w in d.pos && !m.z && !m.raise && !m.sunk
    ensures Move(d, w, to, m).children == d.children
  {
  }

  /** With the z bit alone the list of the window is sorted by the new heights, and the other windows in it
      keep their order. */
  lemma LiftSorts(d: Desk, w: Id, to: Pos)
    requires Inv(d) && w in d.pos && w in d.parent
    ensures var e := Move(d, w, to, ONLY_Z);
            && Low(e.pos, Siblings(e, w)) && Without(Siblings(e, w), w) == Without(Siblings(d, w), w)
            && multiset(Siblings(e, w)) == multiset(Siblings(d, w))
  {
    hide Low, Without, Shape, ListOk, Place, Raise;
    MoveKeeps(d, w, to, ONLY_Z);
    SiblingFacts(Move(d, w, to, ONLY_Z), w);
  }

  /** A new window stands where it was asked for, at height zero; all others stay where they were. */
  lemma CreateStands(d: Desk, par: Id, x: Int32, y: Int32)
    requires Inv(d)
    ensures d.last + 1 !in d.pos && Create(d, par, x, y).pos == d.pos[d.last + 1 := Pos(x, y, 0)]
    ensures Create(d, par, x, y).last == d.last + 1
    ensures Create(d, par, x, y).parent == if par in d.pos then d.parent[d.last + 1 := par] else d.parent
  {
    hide Inv, Lists;
    CreateKeeps(d, par, x, y);
  }
}
