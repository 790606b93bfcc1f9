/** The descriptor memory of the debug models: typed cells at pointers, where a store deletes
    every cell it overlaps. The indexed store looks only at the cells of its own region. */
module CellMemory {
  import opened Arithmetic
  import opened Ranges

  datatype Pointer = Pointer(region: string, offset: int)

  /** A cell has a width and a value. */
  type Cells<V> = map<Pointer, (nat, V)>

  predicate Constant(region: string) {
    |region| > 0 && region[0] == '@'
  }

  predicate Overlap(a: int, aWidth: nat, b: int, bWidth: nat) {
    Max(a, b) < Min(a + aWidth, b + bWidth)
  }

  predicate Hit<V>(m: Cells<V>, p: Pointer, at: Pointer, width: nat)
    requires p in m
  {
    p.region == at.region && Overlap(p.offset, m[p].0, at.offset, width)
  }

  /** The store that scans the whole memory for overlapping cells. */
  function FullScan<V>(m: Cells<V>, at: Pointer, width: nat, value: V): Cells<V> {
    (map p | p in m && !Hit(m, p, at, width) :: m[p])[at := (width, value)]
  }

  ghost predicate Disjoint<V>(m: Cells<V>) {
    forall p, q :: p in m && q in m && p != q && p.region == q.region ==> !Overlap(p.offset, m[p].0, q.offset, m[q].0)
  }

  ghost predicate PositiveWidths<V>(m: Cells<V>) {
    forall p :: p in m ==> m[p].0 > 0
  }

  /** A store of positive width reads back, leaves every cell it does not overlap as it was,
      and keeps the cells disjoint. */
  lemma StoreReadsBack<V>(m: Cells<V>, at: Pointer, width: nat, value: V)
    requires Disjoint(m) && PositiveWidths(m) && width > 0
    ensures var n := FullScan(m, at, width, value);
      && n[at] == (width, value)
      && Disjoint(n) && PositiveWidths(n)
      && (forall p :: p in m && !Hit(m, p, at, width) ==> p in n && n[p] == m[p])
      && (forall p :: p in n && p != at ==> p in m && !Hit(m, p, at, width) && n[p] == m[p])
  {
    assert forall p :: p in m && p == at ==> Hit(m, p, at, width);
  }

  ghost function Region<V>(m: Cells<V>, region: string): set<Pointer> {
    set p | p in m && p.region == region
  }

  function Indexed(localCells: map<string, set<Pointer>>, region: string): set<Pointer> {
    if region in localCells then localCells[region] else {}
  }

  /** The memory with only the given cells left in one region. */
  ghost function Swept<V>(m: Cells<V>, cells: set<Pointer>, region: string): Cells<V> {
    map p | p in m && (p.region == region ==> p in cells) :: m[p]
  }

  lemma SweptRegions<V>(m: Cells<V>, cells: set<Pointer>, at: Pointer, width: nat, value: V)
    requires cells <= Region(m, at.region)
    requires forall p :: p in Region(m, at.region) ==> (p in cells <==> !Hit(m, p, at, width))
    ensures var n := Swept(m, cells, at.region)[at := (width, value)];
      && n == FullScan(m, at, width, value)
      && Region(n, at.region) == cells + {at}
      && forall r :: r != at.region ==> Region(n, r) == Region(m, r)
  {
    var n := Swept(m, cells, at.region)[at := (width, value)];
    forall p | p in m ensures p in Swept(m, cells, at.region) <==> !Hit(m, p, at, width) {
      if p.region == at.region { assert p in Region(m, at.region); }
    }
    OverlayEqual(n, FullScan(m, at, width, value));
    forall r | r != at.region ensures Region(n, r) == Region(m, r) {}
  }

  /** Each region's index holds exactly the region's cells; constants are not indexed. */
  ghost predicate Consistent<V>(m: Cells<V>, localCells: map<string, set<Pointer>>) {
    forall r :: !Constant(r) ==> Region(m, r) == Indexed(localCells, r)
  }

  predicate Readable(sizes: map<string, nat>, payloads: set<string>, at: Pointer, width: nat) {
    at.region in sizes && 0 <= at.offset <= sizes[at.region] - width && at.region !in payloads
  }

  /** Where a store is allowed: inside a known region that is neither payload nor constant. */
  predicate Admitted(sizes: map<string, nat>, payloads: set<string>, at: Pointer, width: nat) {
    Readable(sizes, payloads, at, width) && !Constant(at.region)
  }

  /** Every byte of the access lies in the region, which holds no payload. */
  lemma ReadableExactly(sizes: map<string, nat>, payloads: set<string>, at: Pointer, width: nat)
    requires width > 0
    ensures Readable(sizes, payloads, at, width) ==
      (at.region in sizes && at.region !in payloads
       && forall b :: Within(b, at.offset, width) ==> Within(b, 0, sizes[at.region]))
  {
    assert Within(at.offset, at.offset, width) && Within(at.offset + width - 1, at.offset, width);
  }

  /** Two accesses overlap exactly if they share a byte. */
  lemma OverlapExactly(a: int, aWidth: nat, b: int, bWidth: nat)
    ensures Overlap(a, aWidth, b, bWidth) <==> exists x :: Within(x, a, aWidth) && Within(x, b, bWidth)
  {
    if Overlap(a, aWidth, b, bWidth) {
      assert Within(Max(a, b), a, aWidth) && Within(Max(a, b), b, bWidth);
    }
  }

  /** No cell that starts in the window ends behind it. */
  ghost predicate CutsNone<V>(m: Cells<V>, at: Pointer, length: nat) {
    forall p :: p in m && p.region == at.region && at.offset <= p.offset < at.offset + length ==>
      p.offset + m[p].0 <= at.offset + length
  }

  ghost predicate Holds<V>(m: Cells<V>, at: Pointer, length: nat) {
    exists p :: p in m && p.region == at.region && at.offset <= p.offset < at.offset + length
  }

  lemma WindowExactly<V>(m: Cells<V>, at: Pointer, length: nat)
    ensures Whole(Window(m, at, length), at, length) <==> CutsNone(m, at, length)
    ensures Window(m, at, length) != map[] <==> Holds(m, at, length)
    ensures forall p :: p in Window(m, at, length) ==>
      p.region == at.region && p in m && Window(m, at, length)[p] == m[p]
  {
    var w := Window(m, at, length);
    assert forall p :: p in w <==> p in m && p.region == at.region && at.offset <= p.offset < at.offset + length;
    if w != map[] {
      var p :| p in w;
    }
  }

  class IndexedMemory<V> {
    var sizes: map<string, nat>
    var payloads: set<string>
    var memory: Cells<V>
    var localCells: map<string, set<Pointer>>

    ghost predicate Valid()
      reads this
    {
      Consistent(memory, localCells)
    }

    predicate Admits(at: Pointer, width: nat)
      reads `sizes, `payloads
    {
      Admitted(sizes, payloads, at, width)
    }

    predicate Reads(at: Pointer, width: nat)
      reads `sizes, `payloads
    {
      Readable(sizes, payloads, at, width)
    }

    constructor (constants: Cells<V>, constantSizes: map<string, nat>)
      requires forall p :: p in constants ==> Constant(p.region)
      ensures Valid() && memory == constants && sizes == constantSizes && payloads == {}
    {
      sizes, payloads, memory, localCells := constantSizes, {}, constants, map[];
    }

    /** A new region holds no cells; its name must be new. */
    method Allocate(name: string, size: nat, payload: bool) returns (ok: bool)
      requires Valid()
      modifies this
      ensures Valid() && memory == old(memory) && ok == (name !in old(sizes))
      ensures ok ==> sizes == old(sizes)[name := size] && payloads == old(payloads) + (if payload then {name} else {})
      ensures !ok ==> sizes == old(sizes) && payloads == old(payloads)
    {
      ok := name !in sizes;
      if ok {
        sizes := sizes[name := size];
        if payload { payloads := payloads + {name}; }
      }
    }

    /** The indexed store refines the full scan and keeps the index exact. */
    method Store(at: Pointer, width: nat, value: V) returns (ok: bool)
      requires Valid()
      modifies this`memory, this`localCells
      ensures Valid() && ok == old(Admits(at, width))
      ensures ok == (at.region in sizes && at.region !in payloads && !(|at.region| > 0 && at.region[0] == '@')
                     && 0 <= at.offset && at.offset + width <= sizes[at.region])
      ensures memory == if ok then FullScan(old(memory), at, width, value) else old(memory)
      ensures old(Disjoint(memory) && PositiveWidths(memory)) && width > 0 ==>
        Disjoint(memory) && PositiveWidths(memory)
    {
      ok := Admits(at, width);
      if !ok { return; }
      var cells := Indexed(localCells, at.region);
      assert cells == Region(memory, at.region);
      var todo := cells;
      ghost var before := memory;
      while todo != {}
        invariant localCells == old(localCells) && todo <= cells <= Region(before, at.region)
        invariant memory == Swept(before, cells, at.region)
        invariant forall p :: p in Region(before, at.region) ==>
          (p in cells <==> p in todo || !Hit(before, p, at, width))
        decreases todo
      {
        var other :| other in todo;
        todo := todo - {other};
        if Overlap(other.offset, memory[other].0, at.offset, width) {
          memory := memory - {other};
          cells := cells - {other};
        }
      }
      SweptRegions(before, cells, at, width, value);
      if Disjoint(before) && PositiveWidths(before) && width > 0 { StoreReadsBack(before, at, width, value); }
      memory := memory[at := (width, value)];
      localCells := localCells[at.region := cells + {at}];
    }

    /** Stores a group of fields one by one, in whatever order. */
    method StoreFields(f: Cells<V>)
      requires Valid() && Disjoint(f) && PositiveWidths(f)
      requires forall p :: p in f ==> Admits(p, f[p].0)
      modifies this`memory, this`localCells
      ensures Valid() && memory == Overlay(old(memory), f)
    {
      hide *;
      var todo := f.Keys;
      NothingStored(memory, f);
      while todo != {}
        invariant Valid() && todo <= f.Keys && memory == Overlay(old(memory), f - todo)
        decreases todo
      {
        var p :| p in todo;
        FieldStored(old(memory), f, todo, p);
        todo := todo - {p};
        var ok := Store(p, f[p].0, f[p].1);
      }
      assert f - todo == f;
    }

    /** A descriptor copy between two regions: every source field must lie whole in the window. */
    method Copy(to: Pointer, from: Pointer, length: nat) returns (ok: bool)
      requires Valid() && Disjoint(memory) && PositiveWidths(memory)
      modifies this`memory, this`localCells
      ensures Valid()
      ensures ok == old(Reads(from, length) && Reads(to, length) && from.region != to.region
                        && Whole(Window(memory, from, length), from, length)
                        && (Window(memory, from, length) != map[] ==> !Constant(to.region)))
      ensures ok == (Reads(from, length) && Reads(to, length) && from.region != to.region
                     && CutsNone(old(memory), from, length)
                     && (Holds(old(memory), from, length) ==> !(|to.region| > 0 && to.region[0] == '@')))
      ensures memory == if ok then Overlay(old(memory), Moved(Window(old(memory), from, length), from, to))
        else old(memory)
    {
      hide Disjoint, PositiveWidths, Overlay, Moved, Window, Whole, Consistent;
      var fields := Window(memory, from, length);
      WindowExactly(memory, from, length);
      hide CutsNone, Holds;
      ok := Reads(from, length) && Reads(to, length) && from.region != to.region && Whole(fields, from, length)
            && (fields != map[] ==> !Constant(to.region));
      if ok {
        MovedFits(memory, from, to, length);
        FieldsAdmitted(sizes, payloads, Moved(fields, from, to), to, length);
        StoreFields(Moved(fields, from, to));
      }
    }

    /** A copy that first blanks the whole destination window. */
    method CopyBlank(to: Pointer, from: Pointer, length: nat, blank: V) returns (ok: bool)
      requires Valid() && Disjoint(memory) && PositiveWidths(memory) && length > 0
      modifies this`memory, this`localCells
      ensures Valid()
      ensures ok == old(Reads(from, length) && Admits(to, length) && from.region != to.region
                        && Whole(Window(memory, from, length), from, length))
      ensures ok == (Reads(from, length) && Reads(to, length) && from.region != to.region
                     && CutsNone(old(memory), from, length) && !(|to.region| > 0 && to.region[0] == '@'))
      ensures memory == if ok then BlankMove(old(memory), from, to, length, blank) else old(memory)
    {
      hide Disjoint, PositiveWidths, Overlay, Moved, Window, Whole, Consistent, FullScan;
      var fields := Window(memory, from, length);
      WindowExactly(memory, from, length);
      hide CutsNone, Holds;
      ok := Reads(from, length) && Admits(to, length) && from.region != to.region && Whole(fields, from, length);
      if ok {
        MovedFits(memory, from, to, length);
        FieldsAdmitted(sizes, payloads, Moved(fields, from, to), to, length);
        var blanked := Store(to, length, blank);
        StoreFields(Moved(fields, from, to));
      }
    }
  }

  // ---------- descriptor moves ----------

  ghost predicate HitByAny<V>(m: Cells<V>, p: Pointer, f: Cells<V>)
    requires p in m
  {
    exists q :: q in f && Hit(m, p, q, f[q].0)
  }

  /** The memory once all the cells of f have been stored over m, in any order. */
  ghost function Overlay<V>(m: Cells<V>, f: Cells<V>): Cells<V> {
    (map p | p in m && !HitByAny(m, p, f) :: m[p]) + f
  }

  lemma OverlayNone<V>(m: Cells<V>)
    ensures Overlay(m, map[]) == m
  {
  }

  lemma Subcells<V>(f: Cells<V>, g: Cells<V>)
    requires Disjoint(f) && PositiveWidths(f) && forall p :: p in g ==> p in f && g[p] == f[p]
    ensures Disjoint(g) && PositiveWidths(g)
  {
  }

  /** Storing one more cell apart from the ones already stored. */
  lemma OverlayOne<V>(m: Cells<V>, f: Cells<V>, at: Pointer, width: nat, value: V)
    requires at !in f && Disjoint(f[at := (width, value)]) && PositiveWidths(f[at := (width, value)])
    ensures FullScan(Overlay(m, f), at, width, value) == Overlay(m, f[at := (width, value)])
  {
    var g, n := f[at := (width, value)], Overlay(m, f);
    assert at in g && g[at] == (width, value);
    forall q | q in f ensures q in g && g[q] == f[q] && !Hit(n, q, at, width) {
      assert n[q] == f[q];
    }
    forall p | p in m ensures HitByAny(m, p, g) <==> HitByAny(m, p, f) || Hit(m, p, at, width) {
      if HitByAny(m, p, f) {
        var q :| q in f && Hit(m, p, q, f[q].0);
        assert q in g && Hit(m, p, q, g[q].0);
      }
    }
    OverlayEqual(FullScan(n, at, width, value), Overlay(m, g));
  }

  lemma OverlayEqual<V>(a: Cells<V>, b: Cells<V>)
    requires forall p :: p in a <==> p in b
    requires forall p :: p in a && p in b ==> a[p] == b[p]
    ensures a == b
  {
  }

  lemma NothingStored<V>(m: Cells<V>, f: Cells<V>)
    ensures Overlay(m, f - f.Keys) == m
  {
    assert f - f.Keys == map[];
    OverlayNone(m);
  }

  lemma FieldStored<V>(m: Cells<V>, f: Cells<V>, todo: set<Pointer>, p: Pointer)
    requires Disjoint(f) && PositiveWidths(f) && p in todo && todo <= f.Keys
    ensures FullScan(Overlay(m, f - todo), p, f[p].0, f[p].1) == Overlay(m, f - (todo - {p}))
  {
    var next := f - (todo - {p});
    Subcells(f, next);
    assert next == (f - todo)[p := (f[p].0, f[p].1)];
    OverlayOne(m, f - todo, p, f[p].0, f[p].1);
  }

  function Shift(p: Pointer, from: Pointer, to: Pointer): Pointer {
    Pointer(to.region, p.offset - from.offset + to.offset)
  }

  /** The cells that start in a window. */
  function Window<V>(m: Cells<V>, at: Pointer, length: nat): Cells<V> {
    map p | p in m && p.region == at.region && at.offset <= p.offset < at.offset + length :: m[p]
  }

  predicate Whole<V>(f: Cells<V>, at: Pointer, length: nat) {
    forall p :: p in f ==> p.offset + f[p].0 <= at.offset + length
  }

  /** A window's cells at the same relative offsets of another window. */
  function Moved<V>(f: Cells<V>, from: Pointer, to: Pointer): Cells<V> {
    map p | p in f && p.region == from.region :: Shift(p, from, to) := f[p]
  }

  lemma MovedApart<V>(f: Cells<V>, from: Pointer, to: Pointer)
    requires Disjoint(f) && PositiveWidths(f)
    ensures Disjoint(Moved(f, from, to)) && PositiveWidths(Moved(f, from, to))
  {
    var g := Moved(f, from, to);
    forall q, r | q in g && r in g && q != r ensures !Overlap(q.offset, g[q].0, r.offset, g[r].0) {
      var a :| a in f && a.region == from.region && Shift(a, from, to) == q;
      var b :| b in f && b.region == from.region && Shift(b, from, to) == r;
      assert !Overlap(a.offset, f[a].0, b.offset, f[b].0);
    }
  }

  lemma MovedAt<V>(f: Cells<V>, from: Pointer, to: Pointer, p: Pointer)
    requires p in f && p.region == from.region
    ensures Shift(p, from, to) in Moved(f, from, to) && Moved(f, from, to)[Shift(p, from, to)] == f[p]
  {
  }

  /** Fields inside a window go where the whole window may go. */
  lemma FieldsAdmitted<V>(sizes: map<string, nat>, payloads: set<string>, f: Cells<V>, to: Pointer, length: nat)
    requires Inside(f, to, length) && Readable(sizes, payloads, to, length) && (f != map[] ==> !Constant(to.region))
    ensures forall p :: p in f ==> Admitted(sizes, payloads, p, f[p].0)
  {
  }

  ghost predicate Inside<V>(f: Cells<V>, at: Pointer, length: nat) {
    forall q :: q in f ==> q.region == at.region && at.offset <= q.offset && q.offset + f[q].0 <= at.offset + length
  }

  lemma MovedInside<V>(f: Cells<V>, from: Pointer, to: Pointer, length: nat)
    requires Inside(f, from, length)
    ensures Inside(Moved(f, from, to), to, length)
    ensures f != map[] ==> Moved(f, from, to) != map[]
  {
    var g := Moved(f, from, to);
    forall q | q in g ensures q.region == to.region && to.offset <= q.offset
      && q.offset + g[q].0 <= to.offset + length {
      var p :| p in f && p.region == from.region && Shift(p, from, to) == q;
    }
    if f != map[] {
      var p :| p in f;
      MovedAt(f, from, to, p);
    }
  }

  lemma MovedFits<V>(m: Cells<V>, from: Pointer, to: Pointer, length: nat)
    requires Disjoint(m) && PositiveWidths(m) && Whole(Window(m, from, length), from, length)
    ensures Disjoint(Moved(Window(m, from, length), from, to))
      && PositiveWidths(Moved(Window(m, from, length), from, to))
    ensures Inside(Moved(Window(m, from, length), from, to), to, length)
    ensures Window(m, from, length) != map[] <==> Moved(Window(m, from, length), from, to) != map[]
  {
    var w := Window(m, from, length);
    Subcells(m, w);
    assert Inside(w, from, length);
    hide Disjoint, PositiveWidths, Overlap, Inside;
    MovedApart(w, from, to);
    MovedInside(w, from, to, length);
  }

  /** What overlaying cells that are apart does to the memory. */
  lemma OverlayKeeps<V>(m: Cells<V>, f: Cells<V>)
    requires Disjoint(m) && PositiveWidths(m) && Disjoint(f) && PositiveWidths(f)
    ensures Disjoint(Overlay(m, f)) && PositiveWidths(Overlay(m, f))
    ensures forall p :: p in m && p !in f ==>
      (p in Overlay(m, f) <==> !HitByAny(m, p, f)) && (p in Overlay(m, f) ==> Overlay(m, f)[p] == m[p])
  {
    var n := Overlay(m, f);
    forall p, q | p in n && q in n && p != q && p.region == q.region
      ensures !Overlap(p.offset, n[p].0, q.offset, n[q].0) {
      if p in f && q !in f { assert !Hit(m, q, p, f[p].0); }
      if q in f && p !in f { assert !Hit(m, p, q, f[q].0); }
    }
  }

  lemma FieldReadsBack<V>(m: Cells<V>, from: Pointer, to: Pointer, length: nat, p: Pointer)
    requires p in Window(m, from, length)
    ensures p in m
    ensures var n := Overlay(m, Moved(Window(m, from, length), from, to));
      Shift(p, from, to) in n && n[Shift(p, from, to)] == m[p]
  {
    MovedAt(Window(m, from, length), from, to, p);
  }

  lemma OutsideIsKept<V>(m: Cells<V>, f: Cells<V>, to: Pointer, length: nat, p: Pointer)
    requires PositiveWidths(m) && PositiveWidths(f) && Inside(f, to, length)
    requires p in m && !(p.region == to.region && Overlap(p.offset, m[p].0, to.offset, length))
    ensures p in Overlay(m, f) && Overlay(m, f)[p] == m[p]
  {
    assert p !in f;
    assert forall q :: q in f ==> !Hit(m, p, q, f[q].0);
  }

  /** After a copy every source field reads back at the same relative offset; a cell that lies
      outside the destination window is as it was, and so is a cell inside it exactly when no
      field overlaps it: the copy does not clear the gaps between the fields. */
  lemma CopyKeepsFields<V>(m: Cells<V>, from: Pointer, to: Pointer, length: nat)
    requires Disjoint(m) && PositiveWidths(m) && from.region != to.region
    requires Whole(Window(m, from, length), from, length)
    ensures var f := Moved(Window(m, from, length), from, to);
      var n := Overlay(m, f);
      && (forall p :: p in Window(m, from, length) ==> Shift(p, from, to) in n && n[Shift(p, from, to)] == m[p])
      && (forall p :: p in m && !(p.region == to.region && Overlap(p.offset, m[p].0, to.offset, length)) ==>
            p in n && n[p] == m[p])
      && (forall p :: p in m && p !in f ==> (p in n <==> !HitByAny(m, p, f)) && (p in n ==> n[p] == m[p]))
      && Disjoint(n) && PositiveWidths(n)
  {
    hide *;
    MovedFits(m, from, to, length);
    var f := Moved(Window(m, from, length), from, to);
    OverlayKeeps(m, f);
    forall p | p in Window(m, from, length)
      ensures p in m && Shift(p, from, to) in Overlay(m, f) && Overlay(m, f)[Shift(p, from, to)] == m[p]
    {
      FieldReadsBack(m, from, to, length, p);
    }
    forall p | p in m && !(p.region == to.region && Overlap(p.offset, m[p].0, to.offset, length))
      ensures p in Overlay(m, f) && Overlay(m, f)[p] == m[p]
    {
      OutsideIsKept(m, f, to, length, p);
    }
  }

  /** Blanks the destination window and stores the source's fields over it. */
  ghost function BlankMove<V>(m: Cells<V>, from: Pointer, to: Pointer, length: nat, blank: V): Cells<V> {
    Overlay(FullScan(m, to, length, blank), Moved(Window(m, from, length), from, to))
  }

  /** After a blanking move the destination window reads as the source window did, exactly when the
      source window held a field at all: otherwise the blank itself is read. The windows may lie in
      one region, and may overlap. */
  lemma BlankMoveArrives<V>(m: Cells<V>, from: Pointer, to: Pointer, length: nat, blank: V)
    requires Disjoint(m) && PositiveWidths(m) && length > 0 && Whole(Window(m, from, length), from, length)
    ensures var n := BlankMove(m, from, to, length, blank);
      && (Window(n, to, length) == Moved(Window(m, from, length), from, to) <==> Window(m, from, length) != map[])
      && Disjoint(n) && PositiveWidths(n)
  {
    hide Disjoint, PositiveWidths, FullScan, Overlay, Moved, Window, Whole, Inside;
    MovedFits(m, from, to, length);
    StoreReadsBack(m, to, length, blank);
    var f := Moved(Window(m, from, length), from, to);
    var k := FullScan(m, to, length, blank);
    OverlayKeeps(k, f);
    if f != map[] {
      BlankedWindow(m, f, to, length, blank);
    } else {
      OverlayNone(k);
      BlankIsRead(m, to, length, blank);
    }
  }

  /** Between two regions the source window stays as it was, too. */
  lemma BlankCopyIsExact<V>(m: Cells<V>, from: Pointer, to: Pointer, length: nat, blank: V)
    requires Disjoint(m) && PositiveWidths(m) && length > 0 && from.region != to.region
    requires Whole(Window(m, from, length), from, length)
    ensures var n := BlankMove(m, from, to, length, blank);
      && (Window(n, to, length) == Moved(Window(m, from, length), from, to) <==> Window(m, from, length) != map[])
      && Window(n, from, length) == Window(m, from, length)
      && Disjoint(n) && PositiveWidths(n)
  {
    hide Disjoint, PositiveWidths, FullScan, Overlay, Moved, Window, Whole, Inside;
    MovedFits(m, from, to, length);
    BlankMoveArrives(m, from, to, length, blank);
    SourceIsKept(m, Moved(Window(m, from, length), from, to), from, to, length, blank);
  }

  /** The memory after blanking moves from each window to the next. */
  ghost function Chain<V>(m: Cells<V>, windows: seq<Pointer>, length: nat, blank: V): Cells<V> {
    var n := |windows| - 1;
    if n < 1 then m else BlankMove(Chain(m, windows[..n], length, blank), windows[n - 1], windows[n], length, blank)
  }

  lemma MovedTwice<V>(f: Cells<V>, from: Pointer, via: Pointer, to: Pointer)
    ensures Moved(Moved(f, from, via), via, to) == Moved(f, from, to)
  {
    var g, h, k := Moved(f, from, via), Moved(Moved(f, from, via), via, to), Moved(f, from, to);
    hide Moved;
    forall q | q in h ensures q in k && k[q] == h[q] {
      var r := MovedFrom(g, via, to, q);
      var p := MovedFrom(f, from, via, r);
      MovedAt(f, from, to, p);
    }
    forall q | q in k ensures q in h {
      var p := MovedFrom(f, from, to, q);
      MovedAt(f, from, via, p);
      MovedAt(g, via, to, Shift(p, from, via));
    }
    OverlayEqual(h, k);
  }

  lemma MovedFrom<V>(f: Cells<V>, from: Pointer, to: Pointer, q: Pointer) returns (p: Pointer)
    requires q in Moved(f, from, to)
    ensures p in f && p.region == from.region && Shift(p, from, to) == q && Moved(f, from, to)[q] == f[p]
  {
    p :| p in f && p.region == from.region && Shift(p, from, to) == q;
  }

  lemma MovedNowhere<V>(m: Cells<V>, at: Pointer, length: nat)
    ensures Moved(Window(m, at, length), at, at) == Window(m, at, length)
  {
    var f := Window(m, at, length);
    forall p | p in f ensures p in Moved(f, at, at) && Moved(f, at, at)[p] == f[p] { MovedAt(f, at, at, p); }
  }

  /** A carrier survives any chain of such moves, between any windows of any regions: the last one
      holds the first one's fields, as long as there were any. */
  lemma {:induction false} ChainCarries<V>(m: Cells<V>, windows: seq<Pointer>, length: nat, blank: V)
    requires Disjoint(m) && PositiveWidths(m) && length > 0 && windows != []
    requires Window(m, windows[0], length) != map[] && Whole(Window(m, windows[0], length), windows[0], length)
    ensures var n, last := Chain(m, windows, length, blank), windows[|windows| - 1];
      && Window(n, last, length) == Moved(Window(m, windows[0], length), windows[0], last)
      && Disjoint(n) && PositiveWidths(n)
    decreases |windows|
  {
    hide Disjoint, PositiveWidths, Window, Whole, Moved, BlankMove, Shift;
    var n, first := |windows| - 1, windows[0];
    if n == 0 {
      MovedNowhere(m, first, length);
    } else {
      var before, from := Chain(m, windows[..n], length, blank), windows[n - 1];
      ChainCarries(m, windows[..n], length, blank);
      MovedFits(m, first, from, length);
      InsideIsWhole(Window(before, from, length), from, length);
      BlankMoveArrives(before, from, windows[n], length, blank);
      MovedTwice(Window(m, first, length), first, from, windows[n]);
    }
  }

  lemma InsideIsWhole<V>(f: Cells<V>, at: Pointer, length: nat)
    requires Inside(f, at, length)
    ensures Whole(f, at, length)
  {
  }

  /** A cell that straddles the edge of the destination window is lost when a field overlaps it. */
  lemma StraddlingCellIsDropped<V>(source: string, destination: string, a: V, b: V)
    requires source != destination
    ensures var from, to, cell := Pointer(source, 0), Pointer(destination, 8), Pointer(destination, 4);
      var m := map[from := (8, a), cell := (8, b)];
      && Disjoint(m) && PositiveWidths(m) && Whole(Window(m, from, 24), from, 24)
      && cell !in Window(m, to, 24) && cell in m && cell !in Overlay(m, Moved(Window(m, from, 24), from, to))
  {
    var from, to, cell := Pointer(source, 0), Pointer(destination, 8), Pointer(destination, 4);
    var m := map[from := (8, a), cell := (8, b)];
    var f := Window(m, from, 24);
    assert f == map[from := (8, a)];
    MovedAt(f, from, to, from);
    hide Moved, Window;
    assert to == Shift(from, from, to) && Hit(m, cell, to, 8);
    assert HitByAny(m, cell, Moved(f, from, to));
  }

  lemma BlankIsRead<V>(m: Cells<V>, to: Pointer, length: nat, blank: V)
    requires length > 0
    ensures to in Window(FullScan(m, to, length, blank), to, length)
  {
  }

  lemma SourceIsKept<V>(m: Cells<V>, f: Cells<V>, from: Pointer, to: Pointer, length: nat, blank: V)
    requires PositiveWidths(m) && PositiveWidths(f) && Inside(f, to, length) && from.region != to.region
    ensures Window(Overlay(FullScan(m, to, length, blank), f), from, length) == Window(m, from, length)
  {
    var k := FullScan(m, to, length, blank);
    var n := Overlay(k, f);
    forall p: Pointer | p.region == from.region
      ensures (p in n <==> p in m) && (p in m ==> n[p] == m[p])
    {
      if p in k { assert p !in f && !HitByAny(k, p, f); }
    }
  }

  lemma OnlyBlankStarts<V>(m: Cells<V>, to: Pointer, length: nat, blank: V)
    requires PositiveWidths(m)
    ensures forall p :: p in Window(FullScan(m, to, length, blank), to, length) ==> p == to
  {
    assert forall p :: p in FullScan(m, to, length, blank) && p != to ==> p in m && !Hit(m, p, to, length);
  }

  lemma BlankedWindow<V>(m: Cells<V>, f: Cells<V>, to: Pointer, length: nat, blank: V)
    requires Disjoint(m) && PositiveWidths(m) && Disjoint(f) && PositiveWidths(f) && length > 0
    requires f != map[] && Inside(f, to, length)
    ensures Window(Overlay(FullScan(m, to, length, blank), f), to, length) == f
  {
    var k := FullScan(m, to, length, blank);
    OnlyBlankStarts(m, to, length, blank);
    StoreReadsBack(m, to, length, blank);
    var q :| q in f;
    assert Hit(k, to, q, f[q].0);
    hide FullScan, Disjoint, Hit;
    var n := Overlay(k, f);
    assert HitByAny(k, to, f);
    hide HitByAny;
    WindowOfOverlay(k, f, to, length);
  }

  lemma WindowOfOverlay<V>(k: Cells<V>, f: Cells<V>, to: Pointer, length: nat)
    requires Inside(f, to, length) && PositiveWidths(f)
    requires to in k && HitByAny(k, to, f) && forall p :: p in Window(k, to, length) ==> p == to
    ensures Window(Overlay(k, f), to, length) == f
  {
    hide HitByAny;
    assert forall p :: p in f ==> p in Window(Overlay(k, f), to, length);
    forall p | p in Overlay(k, f) && p !in f ensures p !in Window(Overlay(k, f), to, length) {
      assert p in Window(k, to, length) ==> p == to;
    }
  }
}
