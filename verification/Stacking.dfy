/** The stacking order of the compositor: every window keeps a list of its children, lowest first, and
    moving, raising and creating windows re-sorts those lists by height. */
module Stacking {

  import opened Basics
  import opened StableSort

  type Id = nat
  type Int32 = x: int | -0x8000_0000 <= x <= 0x7fff_ffff

  const INT_MAX: int := 0x7fff_ffff

  datatype Pos = Pos(x: Int32, y: Int32, z: Int32)

  datatype Desk = Desk(last: Id, pos: map<Id, Pos>, parent: map<Id, Id>, children: map<Id, seq<Id>>)

  function Z(pos: map<Id, Pos>, w: Id): Int32 {
    if w in pos then pos[w].z else 0
  }

  /** The comparison handed to the sort. */
  function Higher(pos: map<Id, Pos>): (Id, Id) -> bool {
    (a: Id, b: Id) => Z(pos, a) > Z(pos, b)
  }

  function Stacked(pos: map<Id, Pos>, s: seq<Id>): seq<Id> {
    Sort(Higher(pos), s)
  }

  // ---------------------------------------------------------------- what the desk keeps

  ghost predicate ChildOk(d: Desk, p: Id, c: Id) {
    p < c <= d.last && c in d.pos && c in d.parent && d.parent[c] == p
  }

  ghost predicate ListOk(d: Desk, p: Id, s: seq<Id>) {
    NoDup(s) && forall c :: c in s ==> ChildOk(d, p, c)
  }

  ghost predicate ParentOk(d: Desk, c: Id) {
    c in d.parent ==> d.parent[c] in d.children && c in d.children[d.parent[c]]
  }

  ghost predicate Known(d: Desk, p: Id) {
    p in d.children <==> p in d.pos
  }

  /** The parent links and the child lists describe the same tree. */
  ghost predicate Shape(d: Desk) {
    && (forall p :: p in d.children ==> p <= d.last && ListOk(d, p, d.children[p]))
    && (forall c :: ParentOk(d, c))
    && (forall p :: Known(d, p))
  }

  ghost predicate Low(pos: map<Id, Pos>, s: seq<Id>) {
    Ordered(Higher(pos), s)
  }

  ghost predicate Inv(d: Desk) {
    Shape(d) && forall p :: p in d.children ==> Low(d.pos, d.children[p])
  }

  // ---------------------------------------------------------------- restacking

  predicate Below(parent: map<Id, Id>, q: Id, p: Id) {
    q == p || (q in parent && parent[q] < q && Below(parent, parent[q], p))
  }

  function Lists(d: Desk, p: Id): map<Id, seq<Id>> {
    map q | q in d.children :: if Below(d.parent, q, p) then Stacked(d.pos, d.children[q]) else d.children[q]
  }

  /** Sorts the list of `p` and of every window under it. */
  function Restacked(d: Desk, p: Id): Desk {
    Desk(d.last, d.pos, d.parent, Lists(d, p))
  }

  // ---------------------------------------------------------------- the operations

  datatype Mask = Mask(x: bool, y: bool, z: bool, raise: bool, sunk: bool)

  function WithPos(d: Desk, w: Id, to: Pos): Desk {
    Desk(d.last, d.pos[w := to], d.parent, d.children)
  }

  /** The part of compose_sv_move up to the raise flags. */
  function Place(d: Desk, w: Id, to: Pos, m: Mask): Desk
    requires w in d.pos
  {
    var here := d.pos[w];
    var e := WithPos(d, w, Pos(if m.x then to.x else here.x, if m.y then to.y else here.y,
        if m.z then to.z else here.z));
    if m.z && w in d.parent then Restacked(e, d.parent[w]) else e
  }

  function Wrapped(z: int): Int32
    requires -0x8000_0000 <= z <= INT_MAX + 1
  {
    if z > INT_MAX then z - 0x1_0000_0000 else z
  }

  function Siblings(d: Desk, w: Id): seq<Id> {
    if w in d.parent && d.parent[w] in d.children then d.children[d.parent[w]] else []
  }

  function Top(d: Desk, w: Id): Id
    requires Siblings(d, w) != []
  {
    Siblings(d, w)[|Siblings(d, w)| - 1]
  }

  const ONLY_Z: Mask := Mask(false, false, true, false, false)

  function RaisePos(d: Desk, w: Id): Pos
    requires w in d.pos && Siblings(d, w) != []
  {
    Pos(d.pos[w].x, d.pos[w].y, Wrapped(Z(d.pos, Top(d, w)) + 1))
  }

  function Raise(d: Desk, w: Id): (e: Desk)
    requires w in d.pos
    ensures w in e.pos
  {
    if Siblings(d, w) == [] || Top(d, w) == w || d.pos[w] == RaisePos(d, w) then d
    else Place(d, w, RaisePos(d, w), ONLY_Z)
  }

  function Move(d: Desk, w: Id, to: Pos, m: Mask): Desk
    requires w in d.pos
  {
    if d.pos[w] == to then d
    else
      var placed := Place(d, w, to, m);
      var raised := if m.raise then Raise(placed, w) else placed;
      if m.sunk then Raise(raised, w) else raised
  }

  /** Adds the window on top of its parent's list, at height zero. */
  function Attached(d: Desk, par: Id, x: Int32, y: Int32): Desk {
    var w := d.last + 1;
    var pos := d.pos[w := Pos(x, y, 0)];
    if par in d.pos && par in d.children then
      Desk(w, pos, d.parent[w := par], d.children[w := []][par := d.children[par] + [w]])
    else
      Desk(w, pos, d.parent, d.children[w := []])
  }

  function Create(d: Desk, par: Id, x: Int32, y: Int32): Desk {
    if par in d.pos && par in d.children then Restacked(Attached(d, par, x, y), par) else Attached(d, par, x, y)
  }

  // ---------------------------------------------------------------- one list at a time

  lemma HigherIsStrict(pos: map<Id, Pos>)
    ensures Strict(Higher(pos))
  {
  }

  lemma SameMembers(a: seq<Id>, b: seq<Id>)
    requires multiset(a) == multiset(b)
    ensures forall x :: x in a <==> x in b
    ensures NoDup(a) ==> NoDup(b)
  {
    assert forall x :: x in a <==> x in multiset(a);
    assert forall x :: x in b <==> x in multiset(b);
    if NoDup(a) {
      NoDupCounts(a);
      forall i, j | 0 <= i < j < |b| ensures b[i] != b[j] {
        if b[i] == b[j] { TwoCopies(b, i, j); }
      }
    }
  }

  lemma TwoCopies(s: seq<Id>, i: nat, j: nat)
    requires i < j < |s| && s[i] == s[j]
    ensures multiset(s)[s[i]] >= 2
  {
    assert s == s[..i] + [s[i]] + s[i + 1..j] + [s[j]] + s[j + 1..];
  }

  lemma {:induction false} NoDupCounts(s: seq<Id>)
    requires NoDup(s)
    ensures forall x :: multiset(s)[x] <= 1
    decreases |s|
  {
    if s != [] {
      var front := s[..|s| - 1];
      NoDupCounts(front);
      assert s == front + [s[|s| - 1]];
      assert s[|s| - 1] !in multiset(front);
    }
  }

  lemma StackedOk(d: Desk, p: Id, s: seq<Id>)
    requires ListOk(d, p, s)
    ensures ListOk(d, p, Stacked(d.pos, s)) && Low(d.pos, Stacked(d.pos, s))
    ensures forall x :: x in s <==> x in Stacked(d.pos, s)
  {
    HigherIsStrict(d.pos);
    SortMembers(Higher(d.pos), s);
    SortOrders(Higher(d.pos), s);
    SameMembers(s, Stacked(d.pos, s));
  }

  /** Each list is as before or sorted: the tree is the same. */
  ghost predicate Resorted(d: Desk, lists: map<Id, seq<Id>>) {
    && (forall q :: q in lists <==> q in d.children)
    && forall q :: q in lists ==> lists[q] == d.children[q] || lists[q] == Stacked(d.pos, d.children[q])
  }

  lemma ShapeKept(d: Desk, lists: map<Id, seq<Id>>)
    requires Shape(d) && Resorted(d, lists)
    ensures Shape(Desk(d.last, d.pos, d.parent, lists))
  {
    var e := Desk(d.last, d.pos, d.parent, lists);
    forall p | p in lists ensures ListOk(e, p, lists[p]) {
      StackedOk(d, p, d.children[p]);
      assert forall c :: ChildOk(d, p, c) ==> ChildOk(e, p, c);
    }
    forall c ensures ParentOk(e, c) {
      assert ParentOk(d, c);
      if c in d.parent { StackedOk(d, d.parent[c], d.children[d.parent[c]]); }
    }
    forall p ensures Known(e, p) { assert Known(d, p); }
  }

  /** With all other lists in order, restacking a whole subtree changes one list. */
  lemma RestackTouchesOne(d: Desk, p: Id)
    requires Shape(d) && p in d.children && forall q :: q in d.children && q != p ==> Low(d.pos, d.children[q])
    ensures Lists(d, p) == d.children[p := Stacked(d.pos, d.children[p])]
    ensures Inv(Restacked(d, p))
  {
    forall q | q in d.children && q != p ensures Lists(d, p)[q] == d.children[q] {
      SortOfOrdered(Higher(d.pos), d.children[q]);
    }
    assert Resorted(d, Lists(d, p));
    ShapeKept(d, Lists(d, p));
    StackedOk(d, p, d.children[p]);
  }

  /** Lists that do not hold the window that moved. */
  lemma StaysLow(pos: map<Id, Pos>, w: Id, to: Pos, s: seq<Id>)
    requires Low(pos, s) && w !in s
    ensures Low(pos[w := to], s)
  {
    forall i, j | 0 <= i < j < |s| ensures !Higher(pos[w := to])(s[i], s[j]) {
      assert s[i] != w && s[j] != w && !Higher(pos)(s[i], s[j]);
    }
  }

  /** A window that changes height leaves the order of the others alone. */
  lemma Rehung(pos: map<Id, Pos>, w: Id, to: Pos, s: seq<Id>)
    requires Low(pos, s)
    ensures Without(Stacked(pos[w := to], s), w) == Without(s, w)
  {
    hide Low, Stacked, Sort, Without, Higher;
    WithoutStacked(pos[w := to], s, w);
    WithoutOrdered(pos, s, w);
    WithoutMembers(s, w);
    StaysLow(pos, w, to, Without(s, w));
    LowStacked(pos[w := to], Without(s, w));
  }

  lemma {:induction false} WithoutOrdered(pos: map<Id, Pos>, s: seq<Id>, w: Id)
    requires Low(pos, s)
    ensures Low(pos, Without(s, w))
    decreases |s|
  {
    if s != [] {
      var front, last := s[..|s| - 1], s[|s| - 1];
      WithoutOrdered(pos, front, w);
      if last != w {
        var rest := Without(front, w);
        WithoutMembers(front, w);
        forall i | 0 <= i < |rest| ensures !Higher(pos)(rest[i], last) {
          assert rest[i] in front;
          var k :| 0 <= k < |front| && front[k] == rest[i];
          assert !Higher(pos)(s[k], s[|s| - 1]);
        }
        OrderedSnoc(Higher(pos), rest, last);
      }
    }
  }

  // ---------------------------------------------------------------- placing, raising, creating

  /** The window is alone among its siblings in having moved; every other list is as it was. */
  ghost predicate OnlyMoves(d: Desk, e: Desk, w: Id) {
    && e.parent == d.parent && e.last == d.last && e.children.Keys == d.children.Keys && e.pos.Keys == d.pos.Keys
    && (forall v :: v in d.pos && v != w ==> e.pos[v] == d.pos[v])
    && (forall q :: q in d.children && (w in d.parent ==> q != d.parent[w]) ==> e.children[q] == d.children[q])
    && (w in d.parent ==> Without(Siblings(e, w), w) == Without(Siblings(d, w), w))
    && multiset(Siblings(e, w)) == multiset(Siblings(d, w))
  }

  lemma WithPosShape(d: Desk, w: Id, to: Pos)
    requires Shape(d) && w in d.pos
    ensures Shape(WithPos(d, w, to))
  {
    var e := WithPos(d, w, to);
    forall p | p in d.children ensures ListOk(e, p, d.children[p]) {
      assert forall c :: ChildOk(d, p, c) ==> ChildOk(e, p, c);
    }
    forall c ensures ParentOk(e, c) { assert ParentOk(d, c); }
    forall p ensures Known(e, p) { assert Known(d, p); }
  }

  lemma OthersStayLow(d: Desk, w: Id, to: Pos)
    requires Inv(d) && w in d.pos
    ensures forall q :: q in d.children && (w in d.parent ==> q != d.parent[w]) ==> Low(d.pos[w := to], d.children[q])
  {
    forall q | q in d.children && (w in d.parent ==> q != d.parent[w]) ensures Low(d.pos[w := to], d.children[q]) {
      assert w in d.children[q] ==> ChildOk(d, q, w);
      StaysLow(d.pos, w, to, d.children[q]);
    }
  }

  /** Sideways moves do not touch the order. */
  lemma SameHeight(pos: map<Id, Pos>, w: Id, to: Pos, s: seq<Id>)
    requires Low(pos, s) && w in pos && to.z == pos[w].z
    ensures Low(pos[w := to], s)
  {
    forall i, j | 0 <= i < j < |s| ensures !Higher(pos[w := to])(s[i], s[j]) {
      assert !Higher(pos)(s[i], s[j]);
    }
  }

  lemma LiftKeeps(d: Desk, w: Id, to: Pos)
    requires Inv(d) && w in d.pos && w in d.parent && Shape(WithPos(d, w, to))
    requires forall q :: q in d.children && q != d.parent[w] ==> Low(d.pos[w := to], d.children[q])
    ensures d.parent[w] in d.children
    ensures var e := Restacked(WithPos(d, w, to), d.parent[w]);
            Inv(e) && OnlyMoves(d, e, w) && Siblings(e, w) == Stacked(e.pos, Siblings(d, w))
  {
    hide Stacked, Sort, Low, Without, Higher, ListOk, Below;
    var p := d.parent[w];
    assert ParentOk(d, w);
    RestackTouchesOne(WithPos(d, w, to), p);
    Rehung(d.pos, w, to, d.children[p]);
    StackedMembers(d.pos[w := to], d.children[p]);
  }

  lemma PlaceKeeps(d: Desk, w: Id, to: Pos, m: Mask)
    requires Inv(d) && w in d.pos
    ensures Inv(Place(d, w, to, m)) && OnlyMoves(d, Place(d, w, to, m), w)
    ensures m.z && w in d.parent ==>
      Siblings(Place(d, w, to, m), w) == Stacked(Place(d, w, to, m).pos, Siblings(d, w))
  {
    hide Stacked, Sort, Low, Without, Higher, ListOk, Below;
    var here := d.pos[w];
    var there := Pos(if m.x then to.x else here.x, if m.y then to.y else here.y, if m.z then to.z else here.z);
    var e := WithPos(d, w, there);
    WithPosShape(d, w, there);
    OthersStayLow(d, w, there);
    assert ParentOk(d, w);
    if m.z && w in d.parent {
      LiftKeeps(d, w, there);
    } else if w in d.parent {
      SameHeight(d.pos, w, there, d.children[d.parent[w]]);
    }
  }

  lemma StackedMembers(pos: map<Id, Pos>, s: seq<Id>)
    ensures multiset(Stacked(pos, s)) == multiset(s)
  {
    SortMembers(Higher(pos), s);
  }

  lemma RaiseKeeps(d: Desk, w: Id)
    requires Inv(d) && w in d.pos
    ensures Inv(Raise(d, w)) && OnlyMoves(d, Raise(d, w), w)
  {
    if Siblings(d, w) != [] {
      PlaceKeeps(d, w, RaisePos(d, w), ONLY_Z);
    }
  }

  lemma OnlyMovesTwice(d: Desk, e: Desk, f: Desk, w: Id)
    requires OnlyMoves(d, e, w) && OnlyMoves(e, f, w)
    ensures OnlyMoves(d, f, w)
  {
    hide Without;
    assert e.pos.Keys == d.pos.Keys && e.children.Keys == d.children.Keys;
    forall v | v in d.pos && v != w ensures f.pos[v] == d.pos[v] {
      assert v in e.pos.Keys && v in f.pos.Keys;
    }
    forall q | q in d.children && (w in d.parent ==> q != d.parent[w]) ensures f.children[q] == d.children[q] {
      assert q in e.children.Keys && q in f.children.Keys;
    }
  }

  /** Any move, with any flags, keeps every sibling list sorted and the order of all other windows. */
  lemma MoveKeeps(d: Desk, w: Id, to: Pos, m: Mask)
    requires Inv(d) && w in d.pos
    ensures Inv(Move(d, w, to, m)) && OnlyMoves(d, Move(d, w, to, m), w)
  {
    hide Inv, OnlyMoves, Place, Raise;
    OnlyMovesNone(d, w);
    if d.pos[w] != to {
      PlaceKeeps(d, w, to, m);
      var placed := Place(d, w, to, m);
      StillThere(d, placed, w);
      RaiseKeeps(placed, w);
      OnlyMovesTwice(d, placed, Raise(placed, w), w);
      var raised := if m.raise then Raise(placed, w) else placed;
      RaiseKeeps(raised, w);
      OnlyMovesTwice(d, raised, Raise(raised, w), w);
    }
  }

  lemma OnlyMovesNone(d: Desk, w: Id)
    ensures OnlyMoves(d, d, w)
  {
  }

  lemma StillThere(d: Desk, e: Desk, w: Id)
    requires OnlyMoves(d, e, w) && w in d.pos
    ensures w in e.pos
  {
    assert w in d.pos.Keys;
  }

  // ---------------------------------------------------------------- raise is exact

  lemma LastOf(pos: map<Id, Pos>, s: seq<Id>, w: Id)
    requires Low(pos, s) && NoDup(s) && w in s
    ensures s == Without(s, w) + [w] <==> s[|s| - 1] == w
    ensures (forall v :: v in s && v != w ==> Z(pos, v) < Z(pos, w)) ==> s[|s| - 1] == w
    ensures (exists v :: v in s && Z(pos, v) > Z(pos, w)) ==> s[|s| - 1] != w
  {
    var last := s[|s| - 1];
    if last == w {
      var front := s[..|s| - 1];
      assert w !in front;
      WithoutAbsent(front, w);
      assert s == front + [w];
    } else {
      WithoutMembers(s, w);
      NotLast(s, w);
      var i :| 0 <= i < |s| && s[i] == w;
      assert !Higher(pos)(s[i], s[|s| - 1]);
      assert last in s;
    }
    if v :| v in s && Z(pos, v) > Z(pos, w) {
      var i :| 0 <= i < |s| && s[i] == v;
      assert i < |s| - 1 ==> !Higher(pos)(s[i], s[|s| - 1]);
    }
  }

  lemma {:induction false} WithoutAbsent(s: seq<Id>, w: Id)
    requires w !in s
    ensures Without(s, w) == s
    decreases |s|
  {
    if s != [] {
      WithoutAbsent(s[..|s| - 1], w);
      assert s == s[..|s| - 1] + [s[|s| - 1]];
    }
  }

  /** Raising puts the window last among its siblings and changes nothing else about their order,
      exactly when it is there already or the topmost height can still be counted up. */
  lemma RaiseExact(d: Desk, w: Id)
    requires Inv(d) && w in d.pos && w in d.parent
    ensures Siblings(d, w) != []
    ensures Siblings(Raise(d, w), w) == Without(Siblings(d, w), w) + [w]
            <==> (Top(d, w) == w || Z(d.pos, Top(d, w)) < INT_MAX)
  {
    hide Inv, Raise, Low, Without, NoDup, Siblings;
    SiblingFacts(d, w);
    var s, top := Siblings(d, w), Top(d, w);
    LastOf(d.pos, s, w);
    if top == w {
      RaiseStays(d, w);
    } else {
      TopIsHighest(d.pos, s);
      if d.pos[w] == RaisePos(d, w) {
        RaiseStays(d, w);
        assert Z(d.pos, top) == INT_MAX;
        NotLast(s, w);
      } else {
        RaiseLifts(d, w);
      }
    }
  }

  lemma SiblingFacts(d: Desk, w: Id)
    requires Inv(d) && w in d.parent
    ensures Siblings(d, w) != [] && w in Siblings(d, w) && NoDup(Siblings(d, w)) && Low(d.pos, Siblings(d, w))
  {
    hide Low;
    assert ParentOk(d, w);
    assert ListOk(d, d.parent[w], Siblings(d, w));
  }

  lemma RaiseStays(d: Desk, w: Id)
    requires w in d.pos && Siblings(d, w) != [] && (Top(d, w) == w || d.pos[w] == RaisePos(d, w))
    ensures Raise(d, w) == d
  {
  }

  /** The case in which the window is really sent to a new height. */
  lemma RaiseLifts(d: Desk, w: Id)
    requires Inv(d) && w in d.pos && w in d.parent && w in Siblings(d, w)
    requires Top(d, w) != w && d.pos[w] != RaisePos(d, w)
    requires forall v :: v in Siblings(d, w) ==> Z(d.pos, v) <= Z(d.pos, Top(d, w))
    ensures Siblings(Raise(d, w), w) == Without(Siblings(d, w), w) + [w] <==> Z(d.pos, Top(d, w)) < INT_MAX
  {
    hide Low, Without, Stacked, Sort, Place, NoDup;
    var s, top, e := Siblings(d, w), Top(d, w), Raise(d, w);
    var t := Siblings(e, w);
    PlaceKeeps(d, w, RaisePos(d, w), ONLY_Z);
    RaisedHeight(d, w);
    assert ListOk(d, d.parent[w], s) && ListOk(e, e.parent[w], t) && Low(e.pos, t);
    SameMembers(s, t);
    LastOf(e.pos, t, w);
    forall v | v in s && v != w ensures Z(e.pos, v) == Z(d.pos, v) {
      assert ChildOk(d, d.parent[w], v);
    }
    if Z(d.pos, top) == INT_MAX {
      assert top in t && Z(e.pos, top) > Z(e.pos, w);
    }
  }

  lemma RaisedHeight(d: Desk, w: Id)
    requires w in d.pos && w in d.parent && Siblings(d, w) != [] && Top(d, w) != w && d.pos[w] != RaisePos(d, w)
    ensures Raise(d, w) == Place(d, w, RaisePos(d, w), ONLY_Z)
    ensures Z(Raise(d, w).pos, w) == Wrapped(Z(d.pos, Top(d, w)) + 1)
  {
  }

  const AT_LIMIT: Desk :=
    Desk(3, map[1 := Pos(0, 0, 0), 2 := Pos(0, 0, 0), 3 := Pos(0, 0, INT_MAX)], map[2 := 1, 3 := 1],
         map[1 := [2, 3], 2 := [], 3 := []])

  lemma AtLimitShape()
    ensures Shape(AT_LIMIT)
  {
    assert ListOk(AT_LIMIT, 1, [2, 3]);
  }

  lemma AtLimitLow()
    ensures Low(AT_LIMIT.pos, [2, 3]) && Low(AT_LIMIT.pos, [])
  {
  }

  lemma AtLimitInv()
    ensures Inv(AT_LIMIT) && Siblings(AT_LIMIT, 2) == [2, 3] && 2 in AT_LIMIT.pos && 2 in AT_LIMIT.parent
    ensures Top(AT_LIMIT, 2) == 3 && Z(AT_LIMIT.pos, 3) == INT_MAX
  {
    hide Shape, Low;
    AtLimitShape();
    AtLimitLow();
  }

  lemma OnlyOther(a: Id, b: Id)
    requires a != b
    ensures Without([a, b], a) == [b]
  {
    assert [a, b][..1] == [a] && [a][..0] == [];
    assert Without([a], a) == Without([], a);
  }

  lemma Restacks(d: Desk, p: Id)
    requires Shape(d) && p in d.children && forall q :: q in d.children ==> Low(d.pos, d.children[q])
    ensures Restacked(d, p) == d
  {
    hide Low, Shape, Below;
    RestackTouchesOne(d, p);
    LowStacked(d.pos, d.children[p]);
    assert d.children[p := d.children[p]] == d.children;
  }

  /** Three windows, the upper child at the largest height there is: raising the lower one does not
      bring it up. */
  lemma RaiseAtTheLimit()
    ensures Inv(AT_LIMIT) && 2 in AT_LIMIT.pos && Siblings(AT_LIMIT, 2) == [2, 3]
    ensures Siblings(Raise(AT_LIMIT, 2), 2) != [3, 2]
  {
    hide Inv, Raise, Siblings, Top, Without;
    AtLimitInv();
    RaiseExact(AT_LIMIT, 2);
    OnlyOther(2, 3);
    assert [3] + [2] == [3, 2];
  }

  lemma NotLast(s: seq<Id>, w: Id)
    requires s != [] && s[|s| - 1] != w
    ensures s != Without(s, w) + [w]
  {
    assert (Without(s, w) + [w])[|Without(s, w)|] == w;
  }

  lemma TopIsHighest(pos: map<Id, Pos>, s: seq<Id>)
    requires Low(pos, s) && s != []
    ensures forall v :: v in s ==> Z(pos, v) <= Z(pos, s[|s| - 1])
  {
    forall v | v in s ensures Z(pos, v) <= Z(pos, s[|s| - 1]) {
      var i :| 0 <= i < |s| && s[i] == v;
      assert i < |s| - 1 ==> !Higher(pos)(s[i], s[|s| - 1]);
    }
  }

  // ---------------------------------------------------------------- creating

  lemma AttachedShape(d: Desk, par: Id, x: Int32, y: Int32)
    requires Inv(d) && d.last + 1 !in d.pos
    ensures Shape(Attached(d, par, x, y))
    ensures forall q :: q in Attached(d, par, x, y).children && (par in d.pos ==> q != par) ==>
              Low(Attached(d, par, x, y).pos, Attached(d, par, x, y).children[q])
  {
    hide Low;
    var e := Attached(d, par, x, y);
    var w := d.last + 1;
    assert Known(d, w) && Known(d, par) && ParentOk(d, w);
    assert w in d.parent ==> ChildOk(d, d.parent[w], w);
    forall p | p in e.children ensures p <= e.last && ListOk(e, p, e.children[p]) {
      if p != w {
        assert ListOk(d, p, d.children[p]);
        assert forall c :: ChildOk(d, p, c) ==> ChildOk(e, p, c);
        assert w in d.children[p] ==> ChildOk(d, p, w);
      }
    }
    forall c ensures ParentOk(e, c) { assert ParentOk(d, c); }
    forall p ensures Known(e, p) { assert Known(d, p); }
    forall q | q in e.children && (par in d.pos ==> q != par) ensures Low(e.pos, e.children[q]) {
      if q == w {
        EmptyIsLow(e.pos);
      } else {
        assert w in d.children[q] ==> ChildOk(d, q, w);
        StaysLow(d.pos, w, Pos(x, y, 0), d.children[q]);
      }
    }
  }

  lemma EmptyIsLow(pos: map<Id, Pos>)
    ensures Low(pos, [])
  {
  }

  lemma CreateKeeps(d: Desk, par: Id, x: Int32, y: Int32)
    requires Inv(d)
    ensures Inv(Create(d, par, x, y)) && d.last + 1 !in d.pos
    ensures forall q :: q in d.children && q != par ==> q in Create(d, par, x, y).children
    ensures forall q :: q in d.children && q != par ==> Create(d, par, x, y).children[q] == d.children[q]
    ensures par in d.pos ==> par in d.children && par in Create(d, par, x, y).children
    ensures par in d.pos ==>
      Create(d, par, x, y).children[par] == Stacked(d.pos[d.last + 1 := Pos(x, y, 0)], d.children[par] + [d.last + 1])
  {
    hide Low, Stacked, Sort, Without, Higher, Below, ListOk;
    var w := d.last + 1;
    assert Known(d, w) && Known(d, par);
    AttachedShape(d, par, x, y);
    if par in d.pos {
      RestackTouchesOne(Attached(d, par, x, y), par);
    }
  }

  /** A new window goes above every sibling of height zero or less and below all others; their order
      is untouched. */
  lemma CreatePlaces(d: Desk, par: Id, x: Int32, y: Int32) returns (n: nat)
    requires Inv(d) && par in d.pos
    ensures par in d.children && par in Create(d, par, x, y).children
    ensures var s := d.children[par];
            && n <= |s|
            && (forall i :: 0 <= i < n ==> Z(d.pos, s[i]) <= 0)
            && (forall i :: n <= i < |s| ==> Z(d.pos, s[i]) > 0)
            && Create(d, par, x, y).children[par] == s[..n] + [d.last + 1] + s[n..]
  {
    hide Create, Insert, Sort, Low;
    CreateKeeps(d, par, x, y);
    var s, w := d.children[par], d.last + 1;
    var pos := d.pos[w := Pos(x, y, 0)];
    assert ListOk(d, par, s) && Low(d.pos, s);
    if w in s { NotListed(d, par, s, w); }
    StaysLow(d.pos, w, Pos(x, y, 0), s);
    n := StackedSplits(pos, s, w);
    forall i | 0 <= i < |s| ensures s[i] != w && Z(pos, s[i]) == Z(d.pos, s[i]) {
      assert s[i] in s;
    }
  }

  lemma StackedSplits(pos: map<Id, Pos>, s: seq<Id>, w: Id) returns (n: nat)
    requires Low(pos, s)
    ensures n <= |s| && Stacked(pos, s + [w]) == s[..n] + [w] + s[n..]
    ensures forall i :: 0 <= i < n ==> Z(pos, s[i]) <= Z(pos, w)
    ensures forall i :: n <= i < |s| ==> Z(pos, s[i]) > Z(pos, w)
  {
    hide Insert, Ordered;
    HigherIsStrict(pos);
    SortOfOrdered(Higher(pos), s);
    n := InsertSplits(Higher(pos), s, w);
    assert (s + [w])[..|s|] == s;
  }

  lemma NotListed(d: Desk, p: Id, s: seq<Id>, w: Id)
    requires ListOk(d, p, s) && w in s
    ensures w <= d.last
  {
    assert ChildOk(d, p, w);
  }

  lemma WithoutStacked(pos: map<Id, Pos>, s: seq<Id>, w: Id)
    ensures Without(Stacked(pos, s), w) == Stacked(pos, Without(s, w))
  {
    HigherIsStrict(pos);
    WithoutSort(Higher(pos), s, w);
  }

  lemma LowStacked(pos: map<Id, Pos>, s: seq<Id>)
    requires Low(pos, s)
    ensures Stacked(pos, s) == s
  {
    SortOfOrdered(Higher(pos), s);
  }

  // ---------------------------------------------------------------- whole runs

  datatype Op = NewWindow(par: Id, x: Int32, y: Int32) | MoveWindow(w: Id, to: Pos, m: Mask) | RaiseWindow(w: Id)

  /** Requests that name an unknown window are ignored. */
  function Next(d: Desk, op: Op): Desk {
    match op
    case NewWindow(par, x, y) => Create(d, par, x, y)
    case MoveWindow(w, to, m) => if w in d.pos then Move(d, w, to, m) else d
    case RaiseWindow(w) => if w in d.pos then Raise(d, w) else d
  }

  function Run(d: Desk, ops: seq<Op>): Desk
    decreases |ops|
  {
    if ops == [] then d else Run(Next(d, ops[0]), ops[1..])
  }

  const EMPTY_DESK: Desk := Desk(0, map[], map[], map[])

  lemma {:induction false} RunKeeps(d: Desk, ops: seq<Op>)
    requires Inv(d)
    ensures Inv(Run(d, ops))
    decreases |ops|
  {
    hide Inv;
    if ops != [] {
      match ops[0] {
        case NewWindow(par, x, y) => CreateKeeps(d, par, x, y);
        case MoveWindow(w, to, m) => if w in d.pos { MoveKeeps(d, w, to, m); }
        case RaiseWindow(w) => if w in d.pos { RaiseKeeps(d, w); }
      }
      RunKeeps(Next(d, ops[0]), ops[1..]);
    }
  }

  /** After any sequence of requests every list of siblings is sorted by height. */
  lemma AlwaysSorted(ops: seq<Op>, p: Id)
    ensures var d := Run(EMPTY_DESK, ops);
            p in d.children ==> forall i, j :: 0 <= i < j < |d.children[p]| ==>
              Z(d.pos, d.children[p][i]) <= Z(d.pos, d.children[p][j])
  {
    assert Inv(EMPTY_DESK);
    RunKeeps(EMPTY_DESK, ops);
    var d := Run(EMPTY_DESK, ops);
    if p in d.children {
      var s := d.children[p];
      assert Low(d.pos, s);
      forall i, j | 0 <= i < j < |s| ensures Z(d.pos, s[i]) <= Z(d.pos, s[j]) {
        assert !Higher(d.pos)(s[i], s[j]);
      }
    }
  }

  // ---------------------------------------------------------------- how the failing desk comes about

  const LIMIT_OPS: seq<Op> :=
    [NewWindow(0, 0, 0), NewWindow(1, 0, 0), NewWindow(1, 0, 0), MoveWindow(3, Pos(0, 0, INT_MAX), ONLY_Z)]

  const ORIGIN: Pos := Pos(0, 0, 0)
  const D1: Desk := Desk(1, map[1 := ORIGIN], map[], map[1 := []])
  const D2: Desk := Desk(2, map[1 := ORIGIN, 2 := ORIGIN], map[2 := 1], map[1 := [2], 2 := []])
  const D3: Desk :=
    Desk(3, map[1 := ORIGIN, 2 := ORIGIN, 3 := ORIGIN], map[2 := 1, 3 := 1], map[1 := [2, 3], 2 := [], 3 := []])

  lemma FlatLow(pos: map<Id, Pos>, s: seq<Id>)
    requires forall w :: w in pos ==> pos[w].z == 0
    ensures Low(pos, s)
  {
  }

  lemma FirstWindow()
    ensures Create(EMPTY_DESK, 0, 0, 0) == D1
  {
  }

  lemma SecondWindow()
    ensures Create(D1, 1, 0, 0) == D2
  {
    hide Restacked, Low, Shape;
    var d := Attached(D1, 1, 0, 0);
    assert [] + [2] == [2];
    assert d == D2;
    SecondShape();
    forall q | q in D2.children ensures Low(D2.pos, D2.children[q]) { FlatLow(D2.pos, D2.children[q]); }
    Restacks(D2, 1);
  }

  lemma SecondShape()
    ensures Shape(D2)
  {
    assert ListOk(D2, 1, [2]) && ListOk(D2, 2, []);
  }

  lemma ThirdWindow()
    ensures Create(D2, 1, 0, 0) == D3
  {
    hide Restacked, Low, Shape, Attached, D2, D3;
    ThirdAttached();
    ThirdShape();
    ThirdLow();
    Restacks(D3, 1);
  }

  lemma ThirdLow()
    ensures 1 in D3.children && forall q :: q in D3.children ==> Low(D3.pos, D3.children[q])
  {
    hide Low;
    forall q | q in D3.children ensures Low(D3.pos, D3.children[q]) { FlatLow(D3.pos, D3.children[q]); }
  }

  lemma ThirdAttached()
    ensures Attached(D2, 1, 0, 0) == D3 && 1 in D2.pos && 1 in D2.children
  {
    assert [2] + [3] == [2, 3];
    assert Attached(D2, 1, 0, 0).children == D3.children;
  }

  lemma ThirdShape()
    ensures Shape(D3)
  {
    assert ListOk(D3, 1, [2, 3]) && ListOk(D3, 2, []) && ListOk(D3, 3, []);
  }

  lemma LiftedWindow()
    ensures Move(D3, 3, Pos(0, 0, INT_MAX), ONLY_Z) == AT_LIMIT
  {
    hide Restacked, Low, Shape;
    assert WithPos(D3, 3, Pos(0, 0, INT_MAX)) == AT_LIMIT;
    AtLimitShape();
    AtLimitLow();
    Restacks(AT_LIMIT, 1);
  }

  /** Four requests from the empty desk lead to the desk on which raise does not raise. */
  lemma LimitIsReached()
    ensures Run(EMPTY_DESK, LIMIT_OPS) == AT_LIMIT
  {
    hide Create, Move;
    FirstWindow();
    SecondWindow();
    ThirdWindow();
    LiftedWindow();
    var o := LIMIT_OPS;
    assert Run(EMPTY_DESK, o) == Run(D1, o[1..]);
    assert o[1..][1..] == o[2..] && o[2..][1..] == o[3..] && o[3..][1..] == [];
    assert Run(D1, o[1..]) == Run(D2, o[2..]);
    assert Run(D2, o[2..]) == Run(D3, o[3..]);
    assert Run(D3, o[3..]) == Run(AT_LIMIT, []);
  }

  // ---------------------------------------------------------------- raising through a request

  /** compose_cl_raise: a move to (-1, -1, -1) with only the raise flag. */
  function ClientRaise(d: Desk, w: Id): Desk
    requires w in d.pos
  {
    Move(d, w, Pos(-1, -1, -1), Mask(false, false, false, true, false))
  }

  lemma ClientRaiseIs(d: Desk, w: Id)
    requires w in d.pos
    ensures ClientRaise(d, w) == if d.pos[w] == Pos(-1, -1, -1) then d else Raise(d, w)
  {
    hide Raise;
    var here := d.pos[w];
    assert d.pos[w := Pos(here.x, here.y, here.z)] == d.pos;
  }

  /** A client's raise puts the window last and leaves the rest alone exactly when it is there already, or
      it does not stand at (-1, -1, -1) and the topmost height can still be counted up. */
  lemma ClientRaiseExact(d: Desk, w: Id)
    requires Inv(d) && w in d.pos && w in d.parent
    ensures Siblings(d, w) != []
    ensures Siblings(ClientRaise(d, w), w) == Without(Siblings(d, w), w) + [w]
            <==> (Top(d, w) == w || (d.pos[w] != Pos(-1, -1, -1) && Z(d.pos, Top(d, w)) < INT_MAX))
  {
    hide Inv, Raise, ClientRaise, Siblings, Without, Low, NoDup;
    RaiseExact(d, w);
    ClientRaiseIs(d, w);
    SiblingFacts(d, w);
    LastOf(d.pos, Siblings(d, w), w);
  }
}
