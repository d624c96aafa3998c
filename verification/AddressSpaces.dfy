/** Page directories over physical frames: clone and release of the user half, 4 KB pages. */
module AddressSpaces {

  import opened Basics
  import opened FrameAllocator

  const USER_DIRS := 768          // directory index of the kernel base 0xC0000000
  const ENTRIES := 1024

  /** A directory or table entry: frame number and the low 12 bits. */
  datatype Entry = Entry(frame: nat, flags: nat)

  const ABSENT := Entry(0, 0)
  const PRESENT_WRITABLE := 3

  predicate Present(e: Entry) {
    e.flags % 2 == 1
  }

  /** One place in a directory that refers to a frame: entry `j` of table `i`, or the table itself. */
  datatype Slot = PageSlot(i: nat, j: nat) | TableSlot(i: nat)

  type Tables = map<nat, seq<Entry>>      // frames read as page tables
  type Pages = map<nat, seq<Byte>>        // frames read as data

  /** Every present user entry leads to a table, and every present entry there to a page. */
  ghost predicate WellFormed(dir: seq<Entry>, ts: Tables, ps: Pages) {
    && |dir| == ENTRIES
    && forall i: nat :: i < USER_DIRS && Present(dir[i]) ==> TableWellFormed(dir[i].frame, ts, ps)
  }

  ghost predicate TableWellFormed(t: nat, ts: Tables, ps: Pages) {
    t in ts && |ts[t]| == ENTRIES && forall j: nat :: j < ENTRIES && Present(ts[t][j]) ==> ts[t][j].frame in ps
  }

  /** What a process sees at page `j` of directory slot `i`. */
  datatype View = NoTable | NoPage(dirFlags: nat) | Page(dirFlags: nat, flags: nat, bytes: seq<Byte>)

  ghost function Look(dir: seq<Entry>, ts: Tables, ps: Pages, i: nat, j: nat): View
    requires WellFormed(dir, ts, ps) && i < USER_DIRS && j < ENTRIES
  {
    if !Present(dir[i]) then NoTable
    else
      assert TableWellFormed(dir[i].frame, ts, ps);
      var e := ts[dir[i].frame][j];
      if !Present(e) then NoPage(dir[i].flags) else Page(dir[i].flags, e.flags, ps[e.frame])
  }

  // ---------------------------------------------------------------- frames of a directory

  ghost predicate Refers(dir: seq<Entry>, ts: Tables, s: Slot, f: nat) {
    && s.i < USER_DIRS && s.i < |dir| && Present(dir[s.i]) && dir[s.i].frame in ts
    && match s
       case TableSlot(i) => dir[i].frame == f
       case PageSlot(i, j) =>
         j < |ts[dir[i].frame]| && Present(ts[dir[i].frame][j]) && ts[dir[i].frame][j].frame == f
  }

  /** `owner` lists the frames the user half refers to, each with the one slot that refers to it:
      no frame is referred to twice. */
  ghost predicate Owns(dir: seq<Entry>, ts: Tables, owner: map<nat, Slot>) {
    && (forall s: Slot, f: nat :: Refers(dir, ts, s, f) ==> f in owner && owner[f] == s)
    && (forall f: nat :: f in owner ==> Refers(dir, ts, owner[f], f))
  }

  // ---------------------------------------------------------------- progress of a clone

  ghost predicate EntryCopied(se: Entry, e: Entry, ps0: Pages, ps: Pages, owner: map<nat, Slot>, s: Slot) {
    if Present(se) then
      && e.flags == se.flags && e.frame in owner && owner[e.frame] == s
      && se.frame in ps0 && e.frame in ps && ps[e.frame] == ps0[se.frame]
    else e == ABSENT
  }

  ghost predicate TableCopied(st: seq<Entry>, t: seq<Entry>, ps0: Pages, ps: Pages, owner: map<nat, Slot>,
                              i: nat, n: nat) {
    && |st| == |t| == ENTRIES && n <= ENTRIES
    && (forall j: nat :: j < n ==> EntryCopied(st[j], t[j], ps0, ps, owner, PageSlot(i, j)))
    && (forall j: nat :: n <= j < ENTRIES ==> t[j] == ABSENT)
  }

  ghost predicate DirEntryCopied(se: Entry, e: Entry, ts0: Tables, ps0: Pages, ts: Tables, ps: Pages,
                                 owner: map<nat, Slot>, i: nat) {
    if Present(se) then
      && e.flags == se.flags && e.frame in owner && owner[e.frame] == TableSlot(i)
      && se.frame in ts0 && e.frame in ts
      && TableCopied(ts0[se.frame], ts[e.frame], ps0, ps, owner, i, ENTRIES)
    else e == se
  }

  ghost predicate Extends(a: map<nat, Slot>, b: map<nat, Slot>) {
    forall f :: f in a ==> f in b && b[f] == a[f]
  }

  ghost predicate AgreeOn<T>(a: map<nat, T>, b: map<nat, T>, s: set<nat>) {
    forall f :: f in s && f in a ==> f in b && b[f] == a[f]
  }

  /** What has been copied stays copied while other frames are filled. */
  lemma EntryStays(se: Entry, e: Entry, ps0: Pages, ps: Pages, ps': Pages, owner: map<nat, Slot>,
                   owner': map<nat, Slot>, s: Slot)
    requires EntryCopied(se, e, ps0, ps, owner, s)
    requires Extends(owner, owner') && AgreeOn(ps, ps', owner.Keys)
    ensures EntryCopied(se, e, ps0, ps', owner', s)
  {
  }

  lemma TableStays(st: seq<Entry>, t: seq<Entry>, ps0: Pages, ps: Pages, ps': Pages,
                   owner: map<nat, Slot>, owner': map<nat, Slot>, i: nat, n: nat)
    requires TableCopied(st, t, ps0, ps, owner, i, n)
    requires Extends(owner, owner') && AgreeOn(ps, ps', owner.Keys)
    ensures TableCopied(st, t, ps0, ps', owner', i, n)
  {
    forall j: nat | j < n ensures EntryCopied(st[j], t[j], ps0, ps', owner', PageSlot(i, j)) {
      EntryStays(st[j], t[j], ps0, ps, ps', owner, owner', PageSlot(i, j));
    }
  }

  lemma DirEntryStays(se: Entry, e: Entry, ts0: Tables, ps0: Pages, ts: Tables, ts': Tables, ps: Pages, ps': Pages,
                      owner: map<nat, Slot>, owner': map<nat, Slot>, i: nat)
    requires DirEntryCopied(se, e, ts0, ps0, ts, ps, owner, i)
    requires Extends(owner, owner') && AgreeOn(ps, ps', owner.Keys) && AgreeOn(ts, ts', owner.Keys)
    ensures DirEntryCopied(se, e, ts0, ps0, ts', ps', owner', i)
  {
    if Present(se) {
      TableStays(ts0[se.frame], ts[e.frame], ps0, ps, ps', owner, owner', i, ENTRIES);
    }
  }

  /** Frames outside `free` keep what they hold. */
  ghost predicate KeptOutside<T>(a: map<nat, T>, b: map<nat, T>, free: set<nat>) {
    forall f :: f in a && f !in free ==> f in b && b[f] == a[f]
  }

  /** Owners added for table `i`: each new frame is referred to by its entry. */
  ghost predicate NewOwners(t: seq<Entry>, owner: map<nat, Slot>, owner': map<nat, Slot>, i: nat) {
    forall f :: f in owner' && f !in owner ==>
      && owner'[f].PageSlot? && owner'[f].i == i && owner'[f].j < |t|
      && Present(t[owner'[f].j]) && t[owner'[f].j].frame == f
  }

  class Memory {
    const pmm: Pmm
    var tables: Tables
    var pages: Pages

    constructor (pmm: Pmm)
      ensures this.pmm == pmm && tables == map[] && pages == map[]
    {
      this.pmm := pmm;
      tables, pages := map[], map[];
    }

    method AllocOne() returns (ok: bool, f: nat)
      requires pmm.Valid()
      modifies pmm
      ensures pmm.Valid() && pmm.Balance() == old(pmm.Balance())
      ensures ok <==> old(pmm.FreeFrames()) != {}
      ensures ok ==> f in old(pmm.FreeFrames()) && pmm.FreeFrames() == old(pmm.FreeFrames()) - {f}
      ensures !ok ==> pmm.FreeFrames() == old(pmm.FreeFrames())
    {
      OneFrame(pmm.bitmap);
      var g := pmm.AllocFrames(1);
      if g.Panic? {
        return false, 0;
      }
      assert Interval(g.first, 1) == {g.first};
      return true, g.first;
    }

    /** Copies one present entry: a new frame, the same flags, the same bytes. */
    method ClonePage(st: seq<Entry>, i: nat, j: nat, frame: nat, ghost ps0: Pages, ghost owner: map<nat, Slot>)
        returns (ok: bool, ghost owner': map<nat, Slot>, f: nat)
      requires pmm.Valid() && j < ENTRIES && frame in tables && |st| == ENTRIES && Present(st[j])
      requires TableCopied(st, tables[frame], ps0, pages, owner, i, j)
      requires st[j].frame in ps0 && st[j].frame in pages && pages[st[j].frame] == ps0[st[j].frame]
      requires owner.Keys !! pmm.FreeFrames()
      modifies this`tables, this`pages, pmm
      ensures pmm.Valid() && pmm.Balance() == old(pmm.Balance())
      ensures ok <==> old(pmm.FreeFrames()) != {}
      ensures !ok ==> pmm.FreeFrames() == {}
      ensures ok ==>
                && frame in tables && tables == old(tables)[frame := old(tables)[frame][j := Entry(f, st[j].flags)]]
                && TableCopied(st, tables[frame], ps0, pages, owner', i, j + 1)
                && f in old(pmm.FreeFrames()) && pmm.FreeFrames() == old(pmm.FreeFrames()) - {f}
                && owner' == owner[f := PageSlot(i, j)]
                && pages == old(pages)[f := ps0[st[j].frame]]
    {
      owner' := owner;
      ok, f := AllocOne();
      if !ok {
        return;
      }
      owner' := owner[f := PageSlot(i, j)];
      tables := tables[frame := tables[frame][j := Entry(f, st[j].flags)]];
      pages := pages[f := pages[st[j].frame]];
      PageCopied(st, old(tables[frame]), ps0, old(pages), owner, i, j, f);
    }

    /** The inner loop of the clone: fills the fresh table in `frame` from the source table `st`. */
    method CloneTable(st: seq<Entry>, i: nat, frame: nat, ghost owner: map<nat, Slot>)
        returns (ok: bool, ghost owner': map<nat, Slot>)
      requires pmm.Valid() && |st| == ENTRIES && frame in tables && EmptyTable(tables[frame])
      requires forall j: nat :: j < ENTRIES && Present(st[j]) ==>
                 st[j].frame in pages && st[j].frame !in pmm.FreeFrames()
      requires owner.Keys !! pmm.FreeFrames()
      modifies this`tables, this`pages, pmm
      ensures pmm.Valid() && pmm.Balance() == old(pmm.Balance())
      ensures !ok ==> pmm.FreeFrames() == {}
      ensures ok ==>
                && frame in tables && tables == old(tables)[frame := tables[frame]]
                && TableCopied(st, tables[frame], old(pages), pages, owner', i, ENTRIES)
                && Taken(owner, owner', old(pmm.FreeFrames()), pmm.FreeFrames())
                && KeptOutside(old(pages), pages, old(pmm.FreeFrames()))
                && NewOwners(tables[frame], owner, owner', i)
    {
      hide EntryCopied, TableCopied, NewOwners, KeptOutside, Taken, EmptyTable, FreeSet, ZeroBelow, Words;
      owner' := owner;
      ghost var free0, ps0 := pmm.FreeFrames(), pages;
      EmptyIsCopied(st, tables[frame], ps0, owner, i);
      NothingTaken(owner, free0, ps0);
      ghost var t := tables[frame];
      MapSame(tables, frame);
      var j := 0;
      while j < ENTRIES
        invariant j <= ENTRIES && pmm.Valid() && pmm.Balance() == old(pmm.Balance())
        invariant frame in tables && tables == old(tables)[frame := t] && tables[frame] == t
        invariant TableCopied(st, t, ps0, pages, owner', i, j)
        invariant Taken(owner, owner', free0, pmm.FreeFrames())
        invariant KeptOutside(ps0, pages, free0)
        invariant NewOwners(t, owner, owner', i)
      {
        if Present(st[j]) {
          ghost var p0, o0 := pages, owner';
          TakenFree(owner, o0, free0, pmm.FreeFrames());
          KeptAt(ps0, pages, free0, st[j].frame);
          var f;
          ok, owner', f := ClonePage(st, i, j, frame, ps0, owner');
          if !ok {
            return;
          }
          TableLength(st, t, ps0, p0, o0, i, j);
          MapTwice(old(tables), frame, t, t[j := Entry(f, st[j].flags)]);
          TakenStep(owner, o0, free0, f, PageSlot(i, j));
          OwnersStep(t, owner, o0, i, j, f, st[j].flags);
          KeptStep(ps0, p0, free0, f, ps0[st[j].frame]);
          t := t[j := Entry(f, st[j].flags)];
        } else {
          SkipEntry(st, t, ps0, pages, owner', i, j);
        }
        j := j + 1;
      }
      ok := true;
    }

    /** One turn of the outer loop: a fresh table for a present directory entry, filled from `st`. */
    method CloneEntry(se: Entry, st: seq<Entry>, i: nat, ghost ts0: Tables, ghost ps0: Pages,
                      ghost owner: map<nat, Slot>)
        returns (ok: bool, e: Entry, ghost owner': map<nat, Slot>)
      requires pmm.Valid() && Present(se) && se.frame in ts0 && ts0[se.frame] == st && |st| == ENTRIES
      requires forall j: nat :: j < ENTRIES && Present(st[j]) ==>
                 && st[j].frame in ps0 && st[j].frame in pages && pages[st[j].frame] == ps0[st[j].frame]
                 && st[j].frame !in pmm.FreeFrames()
      requires owner.Keys !! pmm.FreeFrames()
      modifies this`tables, this`pages, pmm
      ensures pmm.Valid() && pmm.Balance() == old(pmm.Balance())
      ensures !ok ==> pmm.FreeFrames() == {}
      ensures ok ==>
                && Present(e) && DirEntryCopied(se, e, ts0, ps0, tables, pages, owner', i)
                && Taken(owner, owner', old(pmm.FreeFrames()), pmm.FreeFrames())
                && KeptOutside(old(tables), tables, old(pmm.FreeFrames()))
                && KeptOutside(old(pages), pages, old(pmm.FreeFrames()))
                && EntryOwners(e, tables, owner, owner', i)
    {
      hide EntryCopied, TableCopied, NewOwners, KeptOutside, Taken;
      e, owner' := se, owner;
      ghost var free0, ts1 := pmm.FreeFrames(), tables;
      var frame;
      ok, frame := AllocOne();
      if !ok {
        return;
      }
      ghost var owner1 := owner[frame := TableSlot(i)];
      e := Entry(frame, se.flags);
      var empty := seq(ENTRIES, _ => ABSENT);
      tables := tables[frame := empty];
      ghost var ps1 := pages;
      ok, owner' := CloneTable(st, i, frame, owner1);
      if !ok {
        return;
      }
      MapTwice(ts1, frame, empty, tables[frame]);
      EntryDone(se, e, st, ts0, ps0, ps1, ts1, tables[frame], pages, owner, owner', i, free0, pmm.FreeFrames());
    }

    /** Clones the user half of `src` page by page; the kernel half is shared, except the recursive
        entry. `ok` is false when the frames run out, where the kernel panics. */
    method Clone(src: seq<Entry>, copyPhys: nat) returns (ok: bool, copy: seq<Entry>, ghost owner: map<nat, Slot>)
      requires pmm.Valid() && WellFormed(src, tables, pages) && Held(src, tables, pmm.FreeFrames())
      modifies this`tables, this`pages, pmm
      ensures pmm.Valid() && pmm.Balance() == old(pmm.Balance())
      ensures !ok ==> pmm.FreeFrames() == {}
      ensures ok ==>
                && WellFormed(copy, tables, pages) && Owns(copy, tables, owner)
                && owner.Keys <= old(pmm.FreeFrames()) && pmm.FreeFrames() == old(pmm.FreeFrames()) - owner.Keys
                && (forall i: nat, j: nat :: i < USER_DIRS && j < ENTRIES ==>
                      Look(copy, tables, pages, i, j) == Look(src, old(tables), old(pages), i, j))
                && (forall i: nat :: USER_DIRS <= i < ENTRIES - 1 ==> copy[i] == src[i])
                && copy[ENTRIES - 1] == Entry(copyPhys, PRESENT_WRITABLE)
                && KeptOutside(old(tables), tables, old(pmm.FreeFrames()))
                && KeptOutside(old(pages), pages, old(pmm.FreeFrames()))
    {
      hide DirEntryCopied, KeptOutside, Taken, EntryOwners, Owns, WellFormed, Held, Progress;
      ghost var free0, ts0, ps0 := pmm.FreeFrames(), tables, pages;
      DirLength(src, tables, pages);
      copy := src[ENTRIES - 1 := Entry(copyPhys, PRESENT_WRITABLE)];
      owner := map[];
      ProgressStart(src, copy, ts0, ps0, free0);
      var i := 0;
      while i < USER_DIRS
        invariant i <= USER_DIRS && pmm.Valid() && pmm.Balance() == old(pmm.Balance())
        invariant |copy| == ENTRIES && copy[ENTRIES - 1] == Entry(copyPhys, PRESENT_WRITABLE)
        invariant forall k: nat :: i <= k < ENTRIES - 1 ==> copy[k] == src[k]
        invariant Progress(src, copy, ts0, ps0, tables, pages, owner, free0, pmm.FreeFrames(), i)
      {
        if Present(src[i]) {
          ProgressSource(src, copy, ts0, ps0, tables, pages, owner, free0, pmm.FreeFrames(), i);
          ghost var ts1, ps1, owner1, free1 := tables, pages, owner, pmm.FreeFrames();
          var e;
          ok, e, owner := CloneEntry(src[i], tables[src[i].frame], i, ts0, ps0, owner);
          if !ok {
            return;
          }
          ProgressStep(src, copy, e, ts0, ps0, ts1, ps1, tables, pages, owner1, owner, free0, free1,
                       pmm.FreeFrames(), i);
          copy := copy[i := e];
        } else {
          ProgressSkip(src, copy, ts0, ps0, tables, pages, owner, free0, pmm.FreeFrames(), i);
        }
        i := i + 1;
      }
      ok := true;
      ProgressDone(src, copy, ts0, ps0, tables, pages, owner, free0, pmm.FreeFrames());
    }

    method FreeOne(f: nat)
      requires pmm.Valid() && f < 32 * MAX_WORDS && f !in pmm.FreeFrames()
      modifies pmm
      ensures pmm.Valid() && pmm.Balance() == old(pmm.Balance())
      ensures pmm.FreeFrames() == old(pmm.FreeFrames()) + {f}
    {
      hide FreeSet;
      PrefixIs(pmm.FreeFrames(), f, 1, 1);
      assert Interval(f, 1) == {f};
      pmm.Free(f * FRAME_SIZE, 1);
    }

    /** The inner loop of the release: every page of table `i`. */
    method ReleaseTable(dir: seq<Entry>, i: nat, ghost owner: map<nat, Slot>, ghost free0: set<nat>)
      requires pmm.Valid() && i < USER_DIRS && WellFormed(dir, tables, pages) && |dir| == ENTRIES && Present(dir[i])
      requires Owns(dir, tables, owner) && Addressable(owner) && owner.Keys !! free0
      requires pmm.FreeFrames() == free0 + Done(owner, i, 0)
      modifies pmm
      ensures pmm.Valid() && pmm.Balance() == old(pmm.Balance())
      ensures pmm.FreeFrames() == free0 + Done(owner, i, ENTRIES)
    {
      hide Owns, Refers, Done, Addressable, WellFormed, TableWellFormed, FreeSet, ZeroBelow, Words;
      TableAt(dir, tables, pages, i);
      var t := tables[dir[i].frame];
      var j := 0;
      while j < ENTRIES
        invariant j <= ENTRIES && pmm.Valid() && pmm.Balance() == old(pmm.Balance())
        invariant pmm.FreeFrames() == free0 + Done(owner, i, j)
      {
        DonePage(dir, tables, owner, i, j);
        if Present(t[j]) {
          NotYetFree(owner, free0, Done(owner, i, j), t[j].frame);
          FreeOne(t[j].frame);
        }
        j := j + 1;
      }
    }

    /** Releases the user half: every frame it owns becomes free, and no other. */
    method Release(dir: seq<Entry>, ghost owner: map<nat, Slot>)
      requires pmm.Valid() && WellFormed(dir, tables, pages)
      requires Owns(dir, tables, owner) && Addressable(owner) && owner.Keys !! pmm.FreeFrames()
      modifies pmm
      ensures pmm.Valid() && pmm.Balance() == old(pmm.Balance())
      ensures pmm.FreeFrames() == old(pmm.FreeFrames()) + owner.Keys
    {
      hide Owns, Refers, Done, TableWellFormed, Addressable, FreeSet, ZeroBelow, Words;
      ghost var free0 := pmm.FreeFrames();
      DoneStart(owner);
      var i := 0;
      while i < USER_DIRS
        invariant i <= USER_DIRS && pmm.Valid() && pmm.Balance() == old(pmm.Balance())
        invariant pmm.FreeFrames() == free0 + Done(owner, i, 0)
      {
        DoneTable(dir, tables, pages, owner, i);
        if Present(dir[i]) {
          ReleaseTable(dir, i, owner, free0);
          NotYetFree(owner, free0, Done(owner, i, ENTRIES), dir[i].frame);
          FreeOne(dir[i].frame);
        }
        i := i + 1;
      }
      DoneEnd(dir, tables, owner);
    }

    /** Cloning a directory and releasing the copy restores exactly the set of free frames. */
    method CloneAndRelease(src: seq<Entry>, copyPhys: nat) returns (ok: bool)
      requires pmm.Valid() && WellFormed(src, tables, pages) && Held(src, tables, pmm.FreeFrames())
      modifies this`tables, this`pages, pmm
      ensures pmm.Valid() && pmm.Balance() == old(pmm.Balance())
      ensures !ok ==> pmm.FreeFrames() == {}
      ensures ok ==> pmm.FreeFrames() == old(pmm.FreeFrames())
    {
      hide WellFormed, Held, Owns, KeptOutside, FreeSet, ZeroBelow, Words, Addressable;
      FreeAddressable(pmm.bitmap);
      ghost var free0 := pmm.FreeFrames();
      var copy;
      ghost var owner;
      ok, copy, owner := Clone(src, copyPhys);
      if ok {
        OwnerAddressable(owner, free0);
        Release(copy, owner);
      }
    }
  }

  lemma FreeAddressable(bm: Bitmap)
    requires |bm| <= MAX_WORDS
    ensures forall f :: f in FreeSet(bm) ==> f < 32 * MAX_WORDS
  {
  }

  lemma OwnerAddressable(owner: map<nat, Slot>, free0: set<nat>)
    requires owner.Keys <= free0 && forall f :: f in free0 ==> f < 32 * MAX_WORDS
    ensures Addressable(owner)
    ensures owner.Keys !! free0 - owner.Keys && free0 - owner.Keys + owner.Keys == free0
  {
    forall f | f in owner ensures f < 32 * MAX_WORDS {
      assert f in owner.Keys;
    }
  }

  /** Isolation: a write to any page the directory does not refer to, such as one of its copy's,
      changes nothing it sees. */
  lemma WritesIsolated(dir: seq<Entry>, ts: Tables, ps: Pages, f: nat, bytes: seq<Byte>, i: nat, j: nat)
    requires WellFormed(dir, ts, ps) && (forall s: Slot :: !Refers(dir, ts, s, f))
    requires i < USER_DIRS && j < ENTRIES
    ensures WellFormed(dir, ts, ps[f := bytes])
    ensures Look(dir, ts, ps[f := bytes], i, j) == Look(dir, ts, ps, i, j)
  {
    forall k: nat | k < USER_DIRS && Present(dir[k]) ensures TableWellFormed(dir[k].frame, ts, ps[f := bytes]) {
      assert TableWellFormed(dir[k].frame, ts, ps);
    }
    if Present(dir[i]) {
      assert TableWellFormed(dir[i].frame, ts, ps);
      assert !Refers(dir, ts, PageSlot(i, j), f);
    }
  }

  /** No two places of a directory that owns its frames share one. */
  lemma FramesDistinct(dir: seq<Entry>, ts: Tables, owner: map<nat, Slot>, s: Slot, t: Slot, f: nat)
    requires Owns(dir, ts, owner) && Refers(dir, ts, s, f) && Refers(dir, ts, t, f)
    ensures s == t
  {
    hide Refers;
  }

  ghost predicate Addressable(owner: map<nat, Slot>) {
    forall f :: f in owner ==> f < 32 * MAX_WORDS
  }

  ghost predicate Before(s: Slot, i: nat, j: nat) {
    s.i < i || (s.i == i && s.PageSlot? && s.j < j)
  }

  /** The frames a release has reached before entry `j` of table `i`. */
  ghost function Done(owner: map<nat, Slot>, i: nat, j: nat): set<nat> {
    set f | f in owner && Before(owner[f], i, j)
  }

  lemma TableAt(dir: seq<Entry>, ts: Tables, ps: Pages, i: nat)
    requires WellFormed(dir, ts, ps) && i < USER_DIRS && i < |dir| && Present(dir[i])
    ensures dir[i].frame in ts && |ts[dir[i].frame]| == ENTRIES
  {
    assert TableWellFormed(dir[i].frame, ts, ps);
  }

  lemma NotYetFree(owner: map<nat, Slot>, free0: set<nat>, done: set<nat>, f: nat)
    requires f in owner && owner.Keys !! free0 && f !in done && Addressable(owner)
    ensures f !in free0 + done && f < 32 * MAX_WORDS && free0 + done + {f} == free0 + (done + {f})
  {
  }

  lemma DoneStart(owner: map<nat, Slot>)
    ensures Done(owner, 0, 0) == {}
  {
  }

  lemma DonePage(dir: seq<Entry>, ts: Tables, owner: map<nat, Slot>, i: nat, j: nat)
    requires Owns(dir, ts, owner) && i < USER_DIRS && i < |dir| && Present(dir[i]) && dir[i].frame in ts
    requires j < |ts[dir[i].frame]|
    ensures var e := ts[dir[i].frame][j];
            if Present(e)
            then e.frame in owner && e.frame !in Done(owner, i, j)
                 && Done(owner, i, j + 1) == Done(owner, i, j) + {e.frame}
            else Done(owner, i, j + 1) == Done(owner, i, j)
  {
    var e := ts[dir[i].frame][j];
    if Present(e) {
      assert Refers(dir, ts, PageSlot(i, j), e.frame);
    }
    forall f | f in Done(owner, i, j + 1) && f !in Done(owner, i, j) ensures Present(e) && f == e.frame {
      assert owner[f] == PageSlot(i, j) && Refers(dir, ts, owner[f], f);
    }
  }

  lemma DoneTable(dir: seq<Entry>, ts: Tables, ps: Pages, owner: map<nat, Slot>, i: nat)
    requires Owns(dir, ts, owner) && i < USER_DIRS && WellFormed(dir, ts, ps)
    ensures if Present(dir[i]) then
              && dir[i].frame in owner && dir[i].frame !in Done(owner, i, ENTRIES)
              && Done(owner, i + 1, 0) == Done(owner, i, ENTRIES) + {dir[i].frame}
            else Done(owner, i + 1, 0) == Done(owner, i, 0)
  {
    if Present(dir[i]) {
      assert TableWellFormed(dir[i].frame, ts, ps);
      assert Refers(dir, ts, TableSlot(i), dir[i].frame);
    }
    forall f | f in Done(owner, i + 1, 0) && f !in Done(owner, i, 0)
      ensures Present(dir[i]) && (f in Done(owner, i, ENTRIES) || f == dir[i].frame)
    {
      assert Refers(dir, ts, owner[f], f);
    }
  }

  lemma DoneEnd(dir: seq<Entry>, ts: Tables, owner: map<nat, Slot>)
    requires Owns(dir, ts, owner)
    ensures Done(owner, USER_DIRS, 0) == owner.Keys
  {
    forall f | f in owner ensures Before(owner[f], USER_DIRS, 0) {
      assert Refers(dir, ts, owner[f], f);
    }
  }

  /** No frame the user half refers to is free. */
  ghost predicate Held(dir: seq<Entry>, ts: Tables, free: set<nat>) {
    forall s: Slot, f: nat :: Refers(dir, ts, s, f) ==> f !in free
  }

  /** The first `n` directory entries are copied, and only their frames have been taken. */
  ghost predicate Progress(src: seq<Entry>, copy: seq<Entry>, ts0: Tables, ps0: Pages, ts: Tables, ps: Pages,
                           owner: map<nat, Slot>, free0: set<nat>, free: set<nat>, n: nat) {
    && |src| == |copy| == ENTRIES && n <= USER_DIRS
    && WellFormed(src, ts0, ps0) && Held(src, ts0, free0)
    && Taken(map[], owner, free0, free) && KeptOutside(ts0, ts, free0) && KeptOutside(ps0, ps, free0)
    && (forall k: nat :: k < n ==> DirEntryCopied(src[k], copy[k], ts0, ps0, ts, ps, owner, k))
    && (forall f: nat :: f in owner ==> owner[f].i < n && Refers(copy, ts, owner[f], f))
  }

  lemma DirLength(src: seq<Entry>, ts: Tables, ps: Pages)
    requires WellFormed(src, ts, ps)
    ensures |src| == ENTRIES
  {
  }

  lemma ProgressStart(src: seq<Entry>, copy: seq<Entry>, ts0: Tables, ps0: Pages, free0: set<nat>)
    requires WellFormed(src, ts0, ps0) && Held(src, ts0, free0) && |copy| == ENTRIES
    ensures Progress(src, copy, ts0, ps0, ts0, ps0, map[], free0, free0, 0)
  {
  }

  /** The source table is still intact and nothing it refers to is free. */
  lemma ProgressSource(src: seq<Entry>, copy: seq<Entry>, ts0: Tables, ps0: Pages, ts: Tables, ps: Pages,
                       owner: map<nat, Slot>, free0: set<nat>, free: set<nat>, n: nat)
    requires Progress(src, copy, ts0, ps0, ts, ps, owner, free0, free, n) && n < USER_DIRS && Present(src[n])
    ensures var t := src[n].frame;
            && t in ts0 && t in ts && ts[t] == ts0[t] && |ts[t]| == ENTRIES
            && forall j: nat :: j < ENTRIES && Present(ts[t][j]) ==>
                 && ts[t][j].frame in ps0 && ts[t][j].frame in ps && ps[ts[t][j].frame] == ps0[ts[t][j].frame]
                 && ts[t][j].frame !in free
    ensures owner.Keys !! free
  {
    var t := src[n].frame;
    assert TableWellFormed(t, ts0, ps0);
    assert Refers(src, ts0, TableSlot(n), t);
    forall j: nat | j < ENTRIES && Present(ts0[t][j]) ensures ts0[t][j].frame !in free0 {
      assert Refers(src, ts0, PageSlot(n, j), ts0[t][j].frame);
    }
  }

  lemma ProgressSkip(src: seq<Entry>, copy: seq<Entry>, ts0: Tables, ps0: Pages, ts: Tables, ps: Pages,
                     owner: map<nat, Slot>, free0: set<nat>, free: set<nat>, n: nat)
    requires Progress(src, copy, ts0, ps0, ts, ps, owner, free0, free, n) && n < USER_DIRS
    requires !Present(src[n]) && copy[n] == src[n]
    ensures Progress(src, copy, ts0, ps0, ts, ps, owner, free0, free, n + 1)
  {
  }

  lemma TakenCompose(owner1: map<nat, Slot>, owner: map<nat, Slot>, free0: set<nat>, free1: set<nat>, free: set<nat>)
    requires Taken(map[], owner1, free0, free1) && Taken(owner1, owner, free1, free)
    ensures Taken(map[], owner, free0, free) && free1 <= free0 && owner1.Keys !! free1
  {
  }

  lemma KeptCompose<T>(a: map<nat, T>, b: map<nat, T>, c: map<nat, T>, free0: set<nat>, free1: set<nat>, held: set<nat>)
    requires KeptOutside(a, b, free0) && KeptOutside(b, c, free1) && free1 <= free0 && held !! free1
    ensures KeptOutside(a, c, free0) && AgreeOn(b, c, held)
  {
  }

  /** A reference recorded earlier survives the next entry. */
  lemma RefersStays(src: seq<Entry>, copy: seq<Entry>, e: Entry, ts0: Tables, ps0: Pages, ts1: Tables, ps1: Pages,
                    ts: Tables, owner1: map<nat, Slot>, n: nat, s: Slot, f: nat)
    requires |src| == |copy| == ENTRIES && s.i < n < USER_DIRS
    requires DirEntryCopied(src[s.i], copy[s.i], ts0, ps0, ts1, ps1, owner1, s.i)
    requires Refers(copy, ts1, s, f) && AgreeOn(ts1, ts, owner1.Keys)
    ensures Refers(copy[n := e], ts, s, f)
  {
  }

  lemma ProgressStep(src: seq<Entry>, copy: seq<Entry>, e: Entry, ts0: Tables, ps0: Pages, ts1: Tables, ps1: Pages,
                     ts: Tables, ps: Pages, owner1: map<nat, Slot>, owner: map<nat, Slot>,
                     free0: set<nat>, free1: set<nat>, free: set<nat>, n: nat)
    requires Progress(src, copy, ts0, ps0, ts1, ps1, owner1, free0, free1, n) && n < USER_DIRS && Present(src[n])
    requires Present(e) && DirEntryCopied(src[n], e, ts0, ps0, ts, ps, owner, n)
    requires Taken(owner1, owner, free1, free) && EntryOwners(e, ts, owner1, owner, n)
    requires KeptOutside(ts1, ts, free1) && KeptOutside(ps1, ps, free1)
    ensures Progress(src, copy[n := e], ts0, ps0, ts, ps, owner, free0, free, n + 1)
  {
    hide DirEntryCopied, Refers, WellFormed, Held, KeptOutside;
    TakenCompose(owner1, owner, free0, free1, free);
    KeptCompose(ts0, ts1, ts, free0, free1, owner1.Keys);
    KeptCompose(ps0, ps1, ps, free0, free1, owner1.Keys);
    var copy' := copy[n := e];
    forall k: nat | k < n + 1 ensures DirEntryCopied(src[k], copy'[k], ts0, ps0, ts, ps, owner, k) {
      if k < n {
        DirEntryStays(src[k], copy[k], ts0, ps0, ts1, ts, ps1, ps, owner1, owner, k);
      }
    }
    forall f: nat | f in owner ensures owner[f].i < n + 1 && Refers(copy', ts, owner[f], f) {
      if f in owner1 {
        RefersStays(src, copy, e, ts0, ps0, ts1, ps1, ts, owner1, n, owner[f], f);
      } else {
        assert OwnedVia(e, ts, owner[f], f, n);
        ViaRefers(copy', e, ts, owner[f], f, n);
      }
    }
  }

  lemma ViaRefers(copy: seq<Entry>, e: Entry, ts: Tables, s: Slot, f: nat, n: nat)
    requires n < USER_DIRS && |copy| == ENTRIES && copy[n] == e
    requires Present(e) && e.frame in ts && OwnedVia(e, ts, s, f, n)
    ensures Refers(copy, ts, s, f)
  {
  }

  lemma CopiedWellFormed(src: seq<Entry>, copy: seq<Entry>, ts0: Tables, ps0: Pages, ts: Tables, ps: Pages,
                         owner: map<nat, Slot>, i: nat)
    requires |src| == |copy| == ENTRIES && i < USER_DIRS && Present(copy[i])
    requires DirEntryCopied(src[i], copy[i], ts0, ps0, ts, ps, owner, i)
    ensures Present(src[i]) && TableWellFormed(copy[i].frame, ts, ps)
  {
    var st, t := ts0[src[i].frame], ts[copy[i].frame];
    forall j: nat | j < ENTRIES && Present(t[j]) ensures t[j].frame in ps {
      assert EntryCopied(st[j], t[j], ps0, ps, owner, PageSlot(i, j));
    }
  }

  lemma CopiedRefers(src: seq<Entry>, copy: seq<Entry>, ts0: Tables, ps0: Pages, ts: Tables, ps: Pages,
                     owner: map<nat, Slot>, s: Slot, f: nat)
    requires |src| == |copy| == ENTRIES && Refers(copy, ts, s, f)
    requires DirEntryCopied(src[s.i], copy[s.i], ts0, ps0, ts, ps, owner, s.i)
    ensures f in owner && owner[f] == s
  {
    if s.PageSlot? {
      assert EntryCopied(ts0[src[s.i].frame][s.j], ts[copy[s.i].frame][s.j], ps0, ps, owner, PageSlot(s.i, s.j));
    }
  }

  lemma CopiedLook(src: seq<Entry>, copy: seq<Entry>, ts0: Tables, ps0: Pages, ts: Tables, ps: Pages,
                   owner: map<nat, Slot>, i: nat, j: nat)
    requires WellFormed(src, ts0, ps0) && WellFormed(copy, ts, ps) && i < USER_DIRS && j < ENTRIES
    requires DirEntryCopied(src[i], copy[i], ts0, ps0, ts, ps, owner, i)
    ensures Look(copy, ts, ps, i, j) == Look(src, ts0, ps0, i, j)
  {
    if Present(src[i]) {
      assert TableWellFormed(src[i].frame, ts0, ps0) && TableWellFormed(copy[i].frame, ts, ps);
      assert EntryCopied(ts0[src[i].frame][j], ts[copy[i].frame][j], ps0, ps, owner, PageSlot(i, j));
    }
  }

  lemma ProgressDone(src: seq<Entry>, copy: seq<Entry>, ts0: Tables, ps0: Pages, ts: Tables, ps: Pages,
                     owner: map<nat, Slot>, free0: set<nat>, free: set<nat>)
    requires Progress(src, copy, ts0, ps0, ts, ps, owner, free0, free, USER_DIRS)
    ensures WellFormed(src, ts0, ps0) && WellFormed(copy, ts, ps) && Owns(copy, ts, owner)
    ensures owner.Keys <= free0 && free == free0 - owner.Keys
    ensures forall i: nat, j: nat :: i < USER_DIRS && j < ENTRIES ==>
              Look(copy, ts, ps, i, j) == Look(src, ts0, ps0, i, j)
    ensures KeptOutside(ts0, ts, free0) && KeptOutside(ps0, ps, free0)
  {
    hide DirEntryCopied, Refers, Look, TableWellFormed, KeptOutside, Held;
    forall i: nat | i < USER_DIRS && Present(copy[i]) ensures TableWellFormed(copy[i].frame, ts, ps) {
      CopiedWellFormed(src, copy, ts0, ps0, ts, ps, owner, i);
    }
    forall s: Slot, f: nat | Refers(copy, ts, s, f) ensures f in owner && owner[f] == s {
      RefersBound(copy, ts, s, f);
      CopiedRefers(src, copy, ts0, ps0, ts, ps, owner, s, f);
    }
    forall i: nat, j: nat | i < USER_DIRS && j < ENTRIES ensures Look(copy, ts, ps, i, j) == Look(src, ts0, ps0, i, j) {
      CopiedLook(src, copy, ts0, ps0, ts, ps, owner, i, j);
    }
  }

  lemma RefersBound(dir: seq<Entry>, ts: Tables, s: Slot, f: nat)
    requires Refers(dir, ts, s, f)
    ensures s.i < USER_DIRS && s.i < |dir| && Present(dir[s.i])
  {
  }

  /** Owners added for directory entry `e` at index `i`: its table, and the pages of that table. */
  ghost predicate EntryOwners(e: Entry, ts: Tables, owner: map<nat, Slot>, owner': map<nat, Slot>, i: nat) {
    e.frame in ts && forall f :: f in owner' && f !in owner ==> OwnedVia(e, ts, owner'[f], f, i)
  }

  ghost predicate OwnedVia(e: Entry, ts: Tables, s: Slot, f: nat, i: nat)
    requires e.frame in ts
  {
    s.i == i && match s
      case TableSlot(_) => f == e.frame
      case PageSlot(_, j) => j < |ts[e.frame]| && Present(ts[e.frame][j]) && ts[e.frame][j].frame == f
  }

  lemma EntryDone(se: Entry, e: Entry, st: seq<Entry>, ts0: Tables, ps0: Pages, ps1: Pages, ts1: Tables, t: seq<Entry>,
                  ps: Pages, owner: map<nat, Slot>, owner': map<nat, Slot>, i: nat, free0: set<nat>, free: set<nat>)
    requires Present(se) && se.frame in ts0 && ts0[se.frame] == st && e.flags == se.flags && |st| == ENTRIES
    requires forall j: nat :: j < ENTRIES && Present(st[j]) ==>
               st[j].frame in ps0 && st[j].frame in ps1 && ps1[st[j].frame] == ps0[st[j].frame]
    requires e.frame in free0 && e.frame !in owner && owner.Keys !! free0
    requires TableCopied(st, t, ps1, ps, owner', i, ENTRIES)
    requires Taken(owner[e.frame := TableSlot(i)], owner', free0 - {e.frame}, free)
    requires KeptOutside(ps1, ps, free0 - {e.frame})
    requires NewOwners(t, owner[e.frame := TableSlot(i)], owner', i)
    ensures DirEntryCopied(se, e, ts0, ps0, ts1[e.frame := t], ps, owner', i)
    ensures Taken(owner, owner', free0, free)
    ensures KeptOutside(ts1, ts1[e.frame := t], free0) && KeptOutside(ps1, ps, free0)
    ensures EntryOwners(e, ts1[e.frame := t], owner, owner', i)
  {
    forall j: nat | j < ENTRIES ensures EntryCopied(st[j], t[j], ps0, ps, owner', PageSlot(i, j)) {
      assert EntryCopied(st[j], t[j], ps1, ps, owner', PageSlot(i, j));
    }
  }

  ghost predicate EmptyTable(t: seq<Entry>) {
    |t| == ENTRIES && forall j :: 0 <= j < |t| ==> t[j] == ABSENT
  }

  /** The new owners are exactly the frames that left the free set. */
  ghost predicate Taken(owner: map<nat, Slot>, owner': map<nat, Slot>, free0: set<nat>, free: set<nat>) {
    && Extends(owner, owner')
    && free == free0 - owner'.Keys
    && forall f :: f in owner' && f !in owner ==> f in free0
  }

  lemma TakenStep(owner: map<nat, Slot>, owner': map<nat, Slot>, free0: set<nat>, f: nat, s: Slot)
    requires Taken(owner, owner', free0, free0 - owner'.Keys) && f in free0 && f !in owner'
    ensures Taken(owner, owner'[f := s], free0, free0 - owner'.Keys - {f})
  {
  }

  lemma OwnersStep(t: seq<Entry>, owner: map<nat, Slot>, owner': map<nat, Slot>, i: nat, j: nat, f: nat, flags: nat)
    requires NewOwners(t, owner, owner', i) && j < |t| && t[j] == ABSENT && f !in owner' && flags % 2 == 1
    ensures NewOwners(t[j := Entry(f, flags)], owner, owner'[f := PageSlot(i, j)], i)
  {
  }

  lemma MapTwice<T>(m: map<nat, T>, k: nat, v: T, w: T)
    ensures m[k := v][k := w] == m[k := w] && m[k := v][k] == v && m[k := w][k] == w
  {
  }

  lemma MapSame<T>(m: map<nat, T>, k: nat)
    requires k in m
    ensures m[k := m[k]] == m
  {
  }

  lemma TakenFree(owner: map<nat, Slot>, owner': map<nat, Slot>, free0: set<nat>, free: set<nat>)
    requires Taken(owner, owner', free0, free)
    ensures free == free0 - owner'.Keys
  {
  }

  lemma NothingTaken(owner: map<nat, Slot>, free0: set<nat>, ps: Pages)
    requires owner.Keys !! free0
    ensures Taken(owner, owner, free0, free0) && KeptOutside(ps, ps, free0)
  {
  }

  lemma KeptAt<T>(a: map<nat, T>, b: map<nat, T>, free: set<nat>, f: nat)
    requires KeptOutside(a, b, free) && f in a && f !in free
    ensures f in b && b[f] == a[f]
  {
  }

  lemma KeptStep<T>(a: map<nat, T>, b: map<nat, T>, free: set<nat>, f: nat, v: T)
    requires KeptOutside(a, b, free) && f in free
    ensures KeptOutside(a, b[f := v], free)
  {
  }

  lemma EmptyIsCopied(st: seq<Entry>, t: seq<Entry>, ps0: Pages, owner: map<nat, Slot>, i: nat)
    requires |st| == ENTRIES && EmptyTable(t)
    ensures TableCopied(st, t, ps0, ps0, owner, i, 0) && NewOwners(t, owner, owner, i)
  {
  }

  lemma SkipEntry(st: seq<Entry>, t: seq<Entry>, ps0: Pages, ps: Pages, owner: map<nat, Slot>, i: nat, j: nat)
    requires j < ENTRIES && TableCopied(st, t, ps0, ps, owner, i, j) && !Present(st[j])
    ensures TableCopied(st, t, ps0, ps, owner, i, j + 1)
  {
  }

  lemma TableLength(st: seq<Entry>, t: seq<Entry>, ps0: Pages, ps: Pages, owner: map<nat, Slot>, i: nat, j: nat)
    requires TableCopied(st, t, ps0, ps, owner, i, j)
    ensures |t| == ENTRIES && (j < ENTRIES ==> t[j] == ABSENT)
  {
  }

  lemma PageCopied(st: seq<Entry>, t: seq<Entry>, ps0: Pages, ps: Pages, owner: map<nat, Slot>, i: nat, j: nat, f: nat)
    requires j < ENTRIES && TableCopied(st, t, ps0, ps, owner, i, j) && Present(st[j])
    requires st[j].frame in ps0 && f !in owner
    ensures TableCopied(st, t[j := Entry(f, st[j].flags)], ps0, ps[f := ps0[st[j].frame]], owner[f := PageSlot(i, j)],
                        i, j + 1)
  {
    TableStays(st, t, ps0, ps, ps[f := ps0[st[j].frame]], owner, owner[f := PageSlot(i, j)], i, j);
  }

  lemma OneFrame(bm: Bitmap)
    ensures (exists g: nat :: RunAt(bm, g, 1)) <==> FreeSet(bm) != {}
  {
    if FreeSet(bm) != {} {
      var g :| g in FreeSet(bm);
      assert RunAt(bm, g, 1);
    }
    if g: nat :| RunAt(bm, g, 1) {
      assert BitSet(bm, g);
      assert g in FreeSet(bm);
    }
  }
}
