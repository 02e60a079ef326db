/** One minor collection after another (runtime/gc/cheney-copy.c:102-154, generational.c:68-87,
  invariant.c:23-33): between collections the program allocates a nursery and writes to the old generation,
  marking cards; a collection moves the nursery into the old generation.

  Nothing happens to the memory when a collection ends; what changes is which objects count as old. An old
  object is named by its number in address order, so a pointer to copy `q` becomes the old pointer with
  number `q` after the objects that were old already. */
module MinorCollections {
  import opened CrossMap
  import opened CardScan
  import Cheney

  /** Where an object keeps its pointers, by its size, data and number of pointers. */
  type Places = (nat, seq<int>, nat) -> seq<nat>

  ghost predicate PlacesOk(places: Places, o: Cheney.Obj) {
    o.slots != [] ==>
      var p := places(o.size, o.data, |o.slots|);
      && |p| == |o.slots| && (forall i | 0 <= i < |p| :: p[i] < o.size)
      && forall i, j | 0 <= i < j < |p| :: p[i] != p[j]
  }

  ghost predicate AllPlaced(places: Places, objs: seq<Cheney.Obj>) {
    forall o | o in objs :: PlacesOk(places, o)
  }

  /** The addresses of the slots of an object at `b`. */
  function Addresses(places: Places, b: nat, o: Cheney.Obj): (r: seq<nat>)
    requires PlacesOk(places, o)
    ensures |r| == |o.slots| && forall i | 0 <= i < |r| :: b <= r[i] < b + o.size
    ensures forall i, j | 0 <= i < j < |r| :: r[i] != r[j]
  {
    if o.slots == [] then []
    else var p := places(o.size, o.data, |o.slots|); seq(|o.slots|, i requires 0 <= i < |o.slots| => b + p[i])
  }

  /** A pointer into the nursery or to a copy, once `base` objects come before them in the old generation. */
  function Settle(v: Cheney.Value, base: nat): (r: Cheney.Value)
    ensures !r.From? && !r.To?
  {
    match v
    case From(q) => Cheney.Old(base + q)
    case To(q) => Cheney.Old(base + q)
    case _ => v
  }

  /** The scan can be done: the old generation is described, and pointers into the nursery lie in marked
    cards (invariant.c:23-33, where the check is switched off because of stacks). */
  ghost predicate Ready(s: Scanner)
    reads s, s.g, s.g.crossMap, s.cardMap
  {
    s.g.Valid() && s.Scannable() && (s.g.oldGenSize > 0 ==> |s.g.bounds| > 1)
  }

  // ------------------------------------------------------------------ writes by the program

  /** A store to an old slot, with markIntergenerationalPointer (generational.c:75-80). */
  method Store(s: Scanner, a: nat, v: Cheney.Value)
    requires Ready(s) && a in s.mem
    modifies s`mem, s.cardMap
    ensures Ready(s) && s.mem == old(s.mem)[a := v]
  {
    SlotCard(s.Here(), s.mem, a);
    ghost var l, m := s.Here(), s.mem;
    s.mem := s.mem[a := v];
    if v.From? { s.cardMap[a / CARD_SIZE] := true; }
    StoredOk(l, m, a, v, s.Here());
  }

  lemma SlotCard(l: Layout, mem: map<nat, Cheney.Value>, a: nat)
    requires l.Ok(mem) && a in mem
    ensures a / CARD_SIZE < |l.marked|
  {
    SlotsBelowEnd(l, mem);
  }

  lemma StoredOk(l: Layout, mem: map<nat, Cheney.Value>, a: nat, v: Cheney.Value, l': Layout)
    requires l.Ok(mem) && Remembered(l, mem) && a in mem && a / CARD_SIZE < |l.marked|
    requires l' == l.(marked := if v.From? then l.marked[a / CARD_SIZE := true] else l.marked)
    ensures l'.Ok(mem[a := v]) && Remembered(l', mem[a := v])
  {
    var mem' := mem[a := v];
    forall n | 0 <= n < |l.bounds| - 1 ensures l'.ObjectOk(n, mem') { assert l.ObjectOk(n, mem); }
    forall b | b in mem' ensures l'.InObject(b) {
      assert l.InObject(b);
      var n :| 0 <= n < |l.bounds| - 1 && l.bounds[n] in l.slots && b in l.slots[l.bounds[n]];
    }
  }

  // ------------------------------------------------------------------ the new objects become old ones

  /** One more object at the end: its slots are listed and hold `values`. */
  lemma OneMore(l: Layout, mem: map<nat, Cheney.Value>, end: nat, addresses: seq<nat>, l': Layout,
                mem': map<nat, Cheney.Value>)
    requires l.Ok(mem) && Boundaries(l.bounds + [end]) && CardOf(end) < |l.marked|
    requires l' == l.(bounds := l.bounds + [end], slots := l.slots[l.End() := addresses])
    requires forall i | 0 <= i < |addresses| :: l.End() <= addresses[i] < end && addresses[i] in mem'
    requires forall a | a in mem' :: a in mem || a in addresses
    requires forall a | a in mem :: a in mem'
    ensures l'.Ok(mem')
  {
    var k := |l.bounds|;
    forall n | 0 <= n < k ensures l'.ObjectOk(n, mem') {
      if n < k - 1 { assert l.ObjectOk(n, mem) && l.bounds[n] < l.bounds[k - 1]; }
    }
    forall a | a in mem' ensures l'.InObject(a) {
      if a in mem {
        assert l.InObject(a);
        var n :| 0 <= n < k - 1 && l.bounds[n] in l.slots && a in l.slots[l.bounds[n]];
        assert l.bounds[n] < l.bounds[k - 1];
        assert l'.bounds[n] in l'.slots && a in l'.slots[l'.bounds[n]];
      } else {
        assert l'.bounds[k - 1] in l'.slots && a in l'.slots[l'.bounds[k - 1]];
      }
    }
  }

  /** The slots of the object hold its values, settled, and the others what they held. */
  ghost predicate Held(mem: map<nat, Cheney.Value>, mem': map<nat, Cheney.Value>, addresses: seq<nat>,
                       values: seq<Cheney.Value>, base: nat, n: nat)
  {
    && n <= |addresses| == |values|
    && (forall i | 0 <= i < n :: addresses[i] in mem' && mem'[addresses[i]] == Settle(values[i], base))
    && (forall a | a in mem' :: a in mem || a in addresses[..n])
    && (forall a | a in mem :: a in mem' && (a !in addresses[..n] ==> mem'[a] == mem[a]))
  }

  method TakeObject(s: Scanner, b: nat, o: Cheney.Obj, base: nat, places: Places)
    requires PlacesOk(places, o)
    modifies s`mem, s`slots
    ensures s.slots == old(s.slots)[b := Addresses(places, b, o)]
    ensures Held(old(s.mem), s.mem, Addresses(places, b, o), o.slots, base, |o.slots|)
  {
    var addresses := Addresses(places, b, o);
    s.slots := s.slots[b := addresses];
    for i := 0 to |addresses|
      invariant s.slots == old(s.slots)[b := addresses]
      invariant Held(old(s.mem), s.mem, addresses, o.slots, base, i)
    {
      assert addresses[..i + 1] == addresses[..i] + [addresses[i]];
      s.mem := s.mem[addresses[i] := Settle(o.slots[i], base)];
    }
  }

  /** Object number `k` of `objs` is in the memory, with its pointers settled. */
  ghost predicate InPlace(mem: map<nat, Cheney.Value>, places: Places, b: nat, o: Cheney.Obj, base: nat) {
    && PlacesOk(places, o)
    && var addresses := Addresses(places, b, o);
       forall i | 0 <= i < |addresses| :: addresses[i] in mem && mem[addresses[i]] == Settle(o.slots[i], base)
  }

  /** All of `objs`, whose boundaries follow number `n0` of `bounds`, are in the memory. */
  ghost predicate AllInPlace(mem: map<nat, Cheney.Value>, places: Places, bounds: seq<nat>, n0: nat,
                             objs: seq<Cheney.Obj>, base: nat, n: nat)
  {
    && n <= |objs| && n0 + n <= |bounds|
    && forall k | 0 <= k < n :: InPlace(mem, places, bounds[n0 + k], objs[k], base)
  }

  /** What was in the memory is unchanged, and nothing new points into the nursery. */
  ghost predicate Extends(mem: map<nat, Cheney.Value>, mem': map<nat, Cheney.Value>) {
    && (forall a | a in mem :: a in mem' && mem'[a] == mem[a])
    && forall a | a in mem' && a !in mem :: !mem'[a].From?
  }

  /** The slots of an object at the end are new. */
  lemma HeldExtends(l: Layout, mem: map<nat, Cheney.Value>, mem': map<nat, Cheney.Value>, places: Places,
                    o: Cheney.Obj, base: nat)
    requires l.Ok(mem) && PlacesOk(places, o)
    requires Held(mem, mem', Addresses(places, l.End(), o), o.slots, base, |o.slots|)
    ensures Extends(mem, mem') && InPlace(mem', places, l.End(), o, base)
  {
    var addresses := Addresses(places, l.End(), o);
    assert addresses[..|o.slots|] == addresses;
    SlotsBelowEnd(l, mem);
    forall a | a in mem' && a !in mem ensures !mem'[a].From? {
      var i :| 0 <= i < |addresses| && addresses[i] == a;
    }
  }

  lemma ExtendsInPlace(mem: map<nat, Cheney.Value>, mem': map<nat, Cheney.Value>, places: Places, bounds: seq<nat>,
                       n0: nat, objs: seq<Cheney.Obj>, base: nat, n: nat)
    requires Extends(mem, mem') && AllInPlace(mem, places, bounds, n0, objs, base, n) && n < |objs|
    requires n0 + n < |bounds| && InPlace(mem', places, bounds[n0 + n], objs[n], base)
    ensures AllInPlace(mem', places, bounds, n0, objs, base, n + 1)
  {
    forall k | 0 <= k < n ensures InPlace(mem', places, bounds[n0 + k], objs[k], base) {
      assert InPlace(mem, places, bounds[n0 + k], objs[k], base);
    }
  }

  lemma ExtendsTrans(m: map<nat, Cheney.Value>, m1: map<nat, Cheney.Value>, m2: map<nat, Cheney.Value>)
    requires Extends(m, m1) && Extends(m1, m2)
    ensures Extends(m, m2)
  {}

  /** Where the next object lies. */
  lemma NextPlace(g: OldGeneration, bounds0: seq<nat>, objs: seq<Cheney.Obj>, k: nat)
    requires g.Objects() && Placed(bounds0, g.bounds, objs) && k < |objs|
    ensures var n := |bounds0| - 1 + k;
            && n + 1 < |g.bounds| && g.bounds[n + 1] == g.bounds[n] + objs[k].size
            && g.bounds[..n + 2] == g.bounds[..n + 1] + [g.bounds[n + 1]] && Boundaries(g.bounds[..n + 2])
            && CardOf(g.bounds[n + 1]) <= CardOf(g.oldGenSize)
  {
    var n := |bounds0| - 1 + k;
    assert PlacedAt(bounds0, g.bounds, objs, k) && PlacedAt(bounds0, g.bounds, objs, k + 1);
    Cheney.TotalPrefix(objs, k);
    g.NextObject(n);
    g.NextObject(n + 1);
    CardMono(g.bounds[n + 1], g.oldGenSize);
  }

  ghost predicate LaidOut(s: Scanner, n: nat)
    requires n <= |s.g.bounds|
    reads s, s.g, s.cardMap
  {
    Layout(s.g.bounds[..n], s.slots, s.cardMap[..]).Ok(s.mem)
  }

  lemma StartPlace(s: Scanner, bounds0: seq<nat>, objs: seq<Cheney.Obj>, places: Places, base: nat)
    requires Placed(bounds0, s.g.bounds, objs)
    ensures bounds0 != [] && |s.g.bounds| == |bounds0| + |objs|
    ensures s.g.bounds[|bounds0| - 1] == bounds0[|bounds0| - 1] && s.g.bounds[..|bounds0|] == bounds0
    ensures Extends(s.mem, s.mem) && AllInPlace(s.mem, places, s.g.bounds, |bounds0| - 1, objs, base, 0)
  {}

  lemma AllTaken(s: Scanner)
    requires LaidOut(s, |s.g.bounds|)
    ensures s.Here().Ok(s.mem)
  {
    assert s.g.bounds[..|s.g.bounds|] == s.g.bounds;
  }

  /** The object between boundaries `n` and `n + 1` is taken in. */
  method TakeNext(s: Scanner, front: nat, o: Cheney.Obj, base: nat, places: Places, ghost n: nat)
    requires n + 1 < |s.g.bounds| && LaidOut(s, n + 1) && PlacesOk(places, o)
    requires front == s.g.bounds[n] && s.g.bounds[n + 1] == front + o.size
    requires s.g.bounds[..n + 2] == s.g.bounds[..n + 1] + [s.g.bounds[n + 1]] && Boundaries(s.g.bounds[..n + 2])
    requires CardOf(s.g.bounds[n + 1]) < s.cardMap.Length
    modifies s`mem, s`slots
    ensures LaidOut(s, n + 2) && Extends(old(s.mem), s.mem)
    ensures InPlace(s.mem, places, s.g.bounds[n], o, base)
  {
    ghost var l, mem := Layout(s.g.bounds[..n + 1], s.slots, s.cardMap[..]), s.mem;
    assert l.End() == front;
    hide PlacesOk, Layout.Ok, Boundaries, CardOf, Extends, InPlace;
    TakeObject(s, front, o, base, places);
    HeldExtends(l, mem, s.mem, places, o, base);
    HeldMore(l, mem, s.g.bounds[n + 1], Layout(s.g.bounds[..n + 2], s.slots, s.cardMap[..]), s.mem, places, o, base);
  }

  lemma HeldMore(l: Layout, mem: map<nat, Cheney.Value>, end: nat, l': Layout, mem': map<nat, Cheney.Value>,
                 places: Places, o: Cheney.Obj, base: nat)
    requires PlacesOk(places, o) && end == l.End() + o.size
    requires l.Ok(mem) && Boundaries(l.bounds + [end]) && CardOf(end) < |l.marked|
    requires l' == l.(bounds := l.bounds + [end], slots := l.slots[l.End() := Addresses(places, l.End(), o)])
    requires Held(mem, mem', Addresses(places, l.End(), o), o.slots, base, |o.slots|)
    ensures l'.Ok(mem')
  {
    var addresses := Addresses(places, l.End(), o);
    assert addresses[..|o.slots|] == addresses;
    hide PlacesOk, Layout.Ok, Boundaries, CardOf;
    OneMore(l, mem, end, addresses, l', mem');
  }

  /** The objects that now follow the old ones are taken into the description of the old generation. */
  method TakeObjects(s: Scanner, start: nat, objs: seq<Cheney.Obj>, base: nat, places: Places,
                     ghost bounds0: seq<nat>)
    requires s.g.Objects() && Placed(bounds0, s.g.bounds, objs) && LaidOut(s, |bounds0|)
    requires start == bounds0[|bounds0| - 1] && CardOf(s.g.oldGenSize) < s.cardMap.Length
    requires AllPlaced(places, objs)
    modifies s`mem, s`slots
    ensures s.Here().Ok(s.mem) && Extends(old(s.mem), s.mem)
    ensures AllInPlace(s.mem, places, s.g.bounds, |bounds0| - 1, objs, base, |objs|)
  {
    hide Placed, OldGeneration.Objects, LaidOut, Extends, AllInPlace, PlacesOk, Boundaries, CardOf;
    var front := start;
    StartPlace(s, bounds0, objs, places, base);
    for k := 0 to |objs|
      invariant Placed(bounds0, s.g.bounds, objs) && |bounds0| - 1 + k < |s.g.bounds|
      invariant front == s.g.bounds[|bounds0| - 1 + k]
      invariant LaidOut(s, |bounds0| + k) && Extends(old(s.mem), s.mem)
      invariant AllInPlace(s.mem, places, s.g.bounds, |bounds0| - 1, objs, base, k)
    {
      assert objs[k] in objs;
      NextPlace(s.g, bounds0, objs, k);
      ghost var m := s.mem;
      TakeNext(s, front, objs[k], base, places, |bounds0| - 1 + k);
      ExtendsInPlace(m, s.mem, places, s.g.bounds, |bounds0| - 1, objs, base, k);
      ExtendsTrans(old(s.mem), m, s.mem);
      front := front + objs[k].size;
    }
    AllTaken(s);
  }

  // ------------------------------------------------------------------ a collection and the next one

  function SettleAll(m: map<nat, Cheney.Value>, base: nat): (r: map<nat, Cheney.Value>)
    ensures r.Keys == m.Keys && CleanAll(r)
  {
    map a | a in m :: Settle(m[a], base)
  }

  /** What the copies need to have their slots listed. */
  lemma CopiesPlaced(c: Cheney.Copied, places: Places)
    requires Cheney.Finished(c) && AllPlaced(places, c.from)
    ensures AllPlaced(places, c.to)
  {
    forall o | o in c.to ensures PlacesOk(places, o) {
      var j :| 0 <= j < |c.to| && c.to[j] == o;
      assert c.Source(j) in c.from && PlacesOk(places, c.Source(j));
    }
  }

  /** The description of the old generation depends on where its slots are, not on what they hold. */
  lemma OkKeys(l: Layout, m: map<nat, Cheney.Value>, m': map<nat, Cheney.Value>)
    requires l.Ok(m) && m.Keys == m'.Keys
    ensures l.Ok(m')
  {
    forall n | 0 <= n < |l.bounds| - 1 ensures l.ObjectOk(n, m') { assert l.ObjectOk(n, m); }
  }

  ghost predicate GlobalsInside(from: seq<Cheney.Obj>, g: seq<Cheney.Value>) {
    forall i | 0 <= i < |g| && g[i].From? :: g[i].obj < |from|
  }

  ghost predicate AllSettled(g: seq<Cheney.Value>, g': seq<Cheney.Value>, base: nat) {
    |g'| == |g| && forall i | 0 <= i < |g| :: g'[i] == Settle(g[i], base)
  }

  method SettleGlobals(globals: array<Cheney.Value>, base: nat)
    modifies globals
    ensures AllSettled(old(globals[..]), globals[..], base)
  {
    for k := 0 to globals.Length
      invariant forall i | 0 <= i < k :: globals[i] == Settle(old(globals[i]), base)
      invariant forall i | k <= i < globals.Length :: globals[i] == old(globals[i])
    {
      globals[k] := Settle(globals[k], base);
    }
  }

  /** The copying, and what is old afterwards. */
  method Copy(s: Scanner, from: seq<Cheney.Obj>, globals: array<Cheney.Value>, canMinor: bool, places: Places)
    returns (copied: bool, taken: seq<Cheney.Obj>, ghost d: Cheney.Copied)
    requires Ready(s) && Cheney.SpaceOk(from) && Aligned(from) && HeldInside(from, s.mem)
    requires GlobalsInside(from, globals[..]) && AllPlaced(places, from)
    requires CardOf(s.g.oldGenSize + Cheney.Total(from)) < s.g.crossMap.Length
    modifies s`mem, s.g, s.g.crossMap, globals
    ensures copied <==> Cheney.Total(from) > 0 && canMinor
    ensures Outcome(copied, d, taken, from, old(globals[..]), globals[..], old(s.mem), s.mem)
    ensures s.g.Valid() && Placed(old(s.g.bounds), s.g.bounds, taken) && s.mem.Keys == old(s.mem).Keys
    ensures s.g.oldGenSize == old(s.g.oldGenSize) + Cheney.Total(taken) <= old(s.g.oldGenSize) + Cheney.Total(from)
    ensures AllPlaced(places, taken)
  {
    hide OldGeneration.Valid, Scanner.Scannable, Collected, Placed, Cheney.Total, CardOf, PlacesOk, Aligned,
         Cheney.SpaceOk, HeldInside;
    taken := from;
    d := Cheney.Copied(from, {}, [], [], [], []);
    var c := MinorCheneyCopyGC(s, from, globals, canMinor);
    copied := c != null;
    if c != null {
      d := c.Now();
      CollectedPlaced(d, old(globals[..]), globals[..], old(s.mem), s.mem, places);
      taken := c.to;
    }
  }

  lemma CollectedPlaced(c: Cheney.Copied, g: seq<Cheney.Value>, g': seq<Cheney.Value>,
                        m: map<nat, Cheney.Value>, m': map<nat, Cheney.Value>, places: Places)
    requires Collected(c, g, g', m, m')
    ensures m.Keys == m'.Keys
    ensures AllPlaced(places, c.from) ==> AllPlaced(places, c.to)
  {
    if AllPlaced(places, c.from) { CopiesPlaced(c, places); }
  }

  /** Either nothing has been copied and the nursery itself is old now, or its copies are. */
  ghost predicate Outcome(copied: bool, d: Cheney.Copied, taken: seq<Cheney.Obj>, from: seq<Cheney.Obj>,
                          g: seq<Cheney.Value>, g1: seq<Cheney.Value>, m: map<nat, Cheney.Value>,
                          m1: map<nat, Cheney.Value>)
  {
    if copied then d.from == from && taken == d.to && Collected(d, g, g1, m, m1)
    else g1 == g && m1 == m && taken == from
  }

  method SettleSlots(s: Scanner, base: nat, ghost n: nat)
    requires n <= |s.g.bounds| && LaidOut(s, n)
    modifies s`mem
    ensures s.mem == SettleAll(old(s.mem), base) && LaidOut(s, n)
  {
    OkKeys(Layout(s.g.bounds[..n], s.slots, s.cardMap[..]), s.mem, SettleAll(s.mem, base));
    s.mem := SettleAll(s.mem, base);
  }

  /** The objects `taken` are old from now on. */
  method TakeIn(s: Scanner, globals: array<Cheney.Value>, taken: seq<Cheney.Obj>, start: nat, base: nat,
                places: Places, ghost bounds0: seq<nat>)
    requires s.g.Valid() && Placed(bounds0, s.g.bounds, taken) && LaidOut(s, |bounds0|)
    requires start == bounds0[|bounds0| - 1] && (start > 0 ==> |bounds0| > 1)
    requires CardOf(s.g.oldGenSize) < s.cardMap.Length && AllPlaced(places, taken)
    modifies s`mem, s`slots, globals
    ensures Ready(s) && CleanAll(s.mem) && Extends(SettleAll(old(s.mem), base), s.mem)
    ensures AllSettled(old(globals[..]), globals[..], base)
    ensures AllInPlace(s.mem, places, s.g.bounds, |bounds0| - 1, taken, base, |taken|)
  {
    assert |bounds0| <= |s.g.bounds|;
    hide OldGeneration.Valid, OldGeneration.Objects, Placed, CardOf, AllPlaced, LaidOut, AllInPlace, Extends, CleanAll,
         SettleAll, AllSettled, Ready, Scanner.Scannable, Layout.Ok, PlacesOk;
    SettleSlots(s, base, |bounds0|);
    SettleGlobals(globals, base);
    TakeSettled(s, taken, start, base, places, bounds0);
  }

  method TakeSettled(s: Scanner, taken: seq<Cheney.Obj>, start: nat, base: nat, places: Places,
                     ghost bounds0: seq<nat>)
    requires s.g.Valid() && Placed(bounds0, s.g.bounds, taken) && LaidOut(s, |bounds0|)
    requires start == bounds0[|bounds0| - 1] && (start > 0 ==> |bounds0| > 1)
    requires CardOf(s.g.oldGenSize) < s.cardMap.Length && AllPlaced(places, taken) && CleanAll(s.mem)
    modifies s`mem, s`slots
    ensures Ready(s) && CleanAll(s.mem) && Extends(old(s.mem), s.mem)
    ensures AllInPlace(s.mem, places, s.g.bounds, |bounds0| - 1, taken, base, |taken|)
  {
    assert |bounds0| <= |s.g.bounds|;
    hide OldGeneration.Valid, OldGeneration.Objects, Placed, CardOf, AllPlaced, LaidOut, AllInPlace, Extends, CleanAll,
         Ready, Scanner.Scannable, Layout.Ok, PlacesOk;
    ghost var m := s.mem;
    Grounded(s.g, bounds0, taken, start);
    TakeObjects(s, start, taken, base, places, bounds0);
    CleanReady(s, m);
  }

  lemma Grounded(g: OldGeneration, bounds0: seq<nat>, objs: seq<Cheney.Obj>, start: nat)
    requires g.Valid() && Placed(bounds0, g.bounds, objs)
    requires start == bounds0[|bounds0| - 1] && (start > 0 ==> |bounds0| > 1)
    ensures g.Objects() && (g.oldGenSize > 0 ==> |g.bounds| > 1)
  {}

  lemma CleanReady(s: Scanner, m: map<nat, Cheney.Value>)
    requires s.g.Valid() && s.Here().Ok(s.mem) && (s.g.oldGenSize > 0 ==> |s.g.bounds| > 1)
    requires Extends(m, s.mem) && CleanAll(m)
    ensures Ready(s) && CleanAll(s.mem)
  {}

  /** A minor collection seen from the next one. With `g1` and `m1` for globals and old slots as the copying
    leaves them: pointers into the nursery and to copies have become old pointers, what is now old is the
    copies, or the nursery if nothing was copied, and the next collection can be done. */
  method MinorGC(s: Scanner, from: seq<Cheney.Obj>, globals: array<Cheney.Value>, canMinor: bool, places: Places,
                 base: nat)
    returns (copied: bool, taken: seq<Cheney.Obj>, ghost d: Cheney.Copied, ghost g1: seq<Cheney.Value>,
             ghost m1: map<nat, Cheney.Value>)
    requires Ready(s) && Cheney.SpaceOk(from) && Aligned(from) && HeldInside(from, s.mem)
    requires GlobalsInside(from, globals[..]) && AllPlaced(places, from)
    requires CardOf(s.g.oldGenSize + Cheney.Total(from)) < s.g.crossMap.Length
    requires CardOf(s.g.oldGenSize + Cheney.Total(from)) < s.cardMap.Length
    modifies s`mem, s`slots, s.g, s.g.crossMap, globals
    ensures Ready(s) && CleanAll(s.mem)
    ensures copied <==> Cheney.Total(from) > 0 && canMinor
    ensures Outcome(copied, d, taken, from, old(globals[..]), g1, old(s.mem), m1)
    ensures AllSettled(g1, globals[..], base)
    ensures Extends(SettleAll(m1, base), s.mem) && Placed(old(s.g.bounds), s.g.bounds, taken)
    ensures AllInPlace(s.mem, places, s.g.bounds, |old(s.g.bounds)| - 1, taken, base, |taken|)
    ensures s.g.oldGenSize == old(s.g.oldGenSize) + Cheney.Total(taken) <= old(s.g.oldGenSize) + Cheney.Total(from)
  {
    ghost var bounds0, m := s.g.bounds, s.mem;
    var start := s.g.oldGenSize;
    BeforeCopy(s);
    hide OldGeneration.Valid, Scanner.Scannable, Outcome, Placed, Cheney.Total, CardOf, AllPlaced, Aligned, Layout.Ok,
         Cheney.SpaceOk, HeldInside, Extends, AllInPlace, CleanAll, LaidOut, GlobalsInside, Ready, AllSettled;
    copied, taken, d := Copy(s, from, globals, canMinor, places);
    g1, m1 := globals[..], s.mem;
    CardMono(s.g.oldGenSize, start + Cheney.Total(from));
    StillLaidOut(s, bounds0, m, taken);
    TakeIn(s, globals, taken, start, base, places, bounds0);
  }

  /** The old pointer that a pointer to copy `q` becomes names the object at the place of the copy. */
  lemma SettledNames(bounds0: seq<nat>, bounds: seq<nat>, taken: seq<Cheney.Obj>, q: nat)
    requires Placed(bounds0, bounds, taken) && q < |taken|
    ensures Settle(Cheney.To(q), |bounds0| - 1).Old? && Settle(Cheney.From(q), |bounds0| - 1).Old?
    ensures var n := Settle(Cheney.To(q), |bounds0| - 1).obj;
            && n + 1 < |bounds| && bounds[n] == bounds0[|bounds0| - 1] + Cheney.Total(taken[..q])
            && bounds[n + 1] == bounds[n] + taken[q].size
    ensures Settle(Cheney.From(q), |bounds0| - 1) == Settle(Cheney.To(q), |bounds0| - 1)
  {
    assert PlacedAt(bounds0, bounds, taken, q) && PlacedAt(bounds0, bounds, taken, q + 1);
    Cheney.TotalPrefix(taken, q);
  }

  lemma BeforeCopy(s: Scanner)
    requires Ready(s)
    ensures s.g.bounds != [] && s.g.oldGenSize == s.g.bounds[|s.g.bounds| - 1] && s.Here().Ok(s.mem)
    ensures s.g.oldGenSize > 0 ==> |s.g.bounds| > 1
  {}

  lemma StillLaidOut(s: Scanner, bounds0: seq<nat>, m: map<nat, Cheney.Value>, objs: seq<Cheney.Obj>)
    requires Placed(bounds0, s.g.bounds, objs) && m.Keys == s.mem.Keys
    requires Layout(bounds0, s.slots, s.cardMap[..]).Ok(m)
    ensures |bounds0| <= |s.g.bounds| && LaidOut(s, |bounds0|)
  {
    assert s.g.bounds[..|bounds0|] == bounds0;
    OkKeys(Layout(bounds0, s.slots, s.cardMap[..]), m, s.mem);
  }

  // ------------------------------------------------------------------ any number of collections

  /** What the program does before a collection: it fills a nursery, writes to old slots and to globals. */
  datatype Round = Round(from: seq<Cheney.Obj>, writes: seq<(nat, Cheney.Value)>, globals: seq<Cheney.Value>,
                         canMinor: bool)

  ghost predicate RoundOk(r: Round, places: Places, globals: nat) {
    && Cheney.SpaceOk(r.from) && Aligned(r.from) && AllPlaced(places, r.from)
    && (forall w | w in r.writes && w.1.From? :: w.1.obj < |r.from|)
    && |r.globals| == globals && GlobalsInside(r.from, r.globals)
  }

  /** The bytes that the nurseries of all rounds may add. */
  function Bytes(rounds: seq<Round>): nat {
    if rounds == [] then 0 else Cheney.Total(rounds[0].from) + Bytes(rounds[1..])
  }

  /** The writes of a round; one to an address that is no slot of an old object does not happen. */
  method StoreAll(s: Scanner, from: seq<Cheney.Obj>, writes: seq<(nat, Cheney.Value)>)
    requires Ready(s) && CleanAll(s.mem) && forall w | w in writes && w.1.From? :: w.1.obj < |from|
    modifies s`mem, s.cardMap
    ensures Ready(s) && HeldInside(from, s.mem) && s.mem.Keys == old(s.mem).Keys
  {
    hide Ready;
    for i := 0 to |writes|
      invariant Ready(s) && HeldInside(from, s.mem) && s.mem.Keys == old(s.mem).Keys
    {
      assert writes[i] in writes;
      if writes[i].0 in s.mem { Store(s, writes[i].0, writes[i].1); }
    }
  }

  method SetGlobals(globals: array<Cheney.Value>, values: seq<Cheney.Value>)
    requires |values| == globals.Length
    modifies globals
    ensures globals[..] == values
  {
    for i := 0 to globals.Length
      invariant globals[..i] == values[..i]
    {
      globals[i] := values[i];
    }
    assert globals[..globals.Length] == globals[..] && values[..|values|] == values;
  }

  /** Any number of rounds: whatever the program allocates and writes in between, every minor collection finds
    the old generation as it needs it and leaves no pointer into the nursery. */
  method Collections(s: Scanner, rounds: seq<Round>, globals: array<Cheney.Value>, places: Places, base: nat)
    returns (base': nat)
    requires Ready(s) && CleanAll(s.mem) && forall r | r in rounds :: RoundOk(r, places, globals.Length)
    requires CardOf(s.g.oldGenSize + Bytes(rounds)) < s.g.crossMap.Length
    requires CardOf(s.g.oldGenSize + Bytes(rounds)) < s.cardMap.Length
    modifies s`mem, s`slots, s.cardMap, s.g, s.g.crossMap, globals
    ensures Ready(s) && CleanAll(s.mem)
    ensures base' - base == |s.g.bounds| - |old(s.g.bounds)|
    ensures s.g.oldGenSize <= old(s.g.oldGenSize) + Bytes(rounds)
  {
    hide Ready, CleanAll, CardOf, RoundOk;
    base' := base;
    assert rounds[0..] == rounds;
    for k := 0 to |rounds|
      invariant Ready(s) && CleanAll(s.mem) && base' - base == |s.g.bounds| - |old(s.g.bounds)|
      invariant s.g.oldGenSize + Bytes(rounds[k..]) <= old(s.g.oldGenSize) + Bytes(rounds)
    {
      assert rounds[k..][1..] == rounds[k + 1..] && rounds[k] in rounds;
      CardMono(s.g.oldGenSize + Cheney.Total(rounds[k].from), old(s.g.oldGenSize) + Bytes(rounds));
      var taken := OneRound(s, rounds[k], globals, places, base');
      base' := base' + |taken|;
    }
  }

  method OneRound(s: Scanner, r: Round, globals: array<Cheney.Value>, places: Places, base: nat)
    returns (taken: seq<Cheney.Obj>)
    requires Ready(s) && CleanAll(s.mem) && RoundOk(r, places, globals.Length)
    requires CardOf(s.g.oldGenSize + Cheney.Total(r.from)) < s.g.crossMap.Length
    requires CardOf(s.g.oldGenSize + Cheney.Total(r.from)) < s.cardMap.Length
    modifies s`mem, s`slots, s.cardMap, s.g, s.g.crossMap, globals
    ensures Ready(s) && CleanAll(s.mem) && |s.g.bounds| == |old(s.g.bounds)| + |taken|
    ensures s.g.oldGenSize <= old(s.g.oldGenSize) + Cheney.Total(r.from)
  {
    hide Ready, CleanAll, CardOf, AllPlaced, Outcome, AllInPlace, Extends, AllSettled;
    StoreAll(s, r.from, r.writes);
    SetGlobals(globals, r.globals);
    var copied;
    ghost var d, g1, m1;
    copied, taken, d, g1, m1 := MinorGC(s, r.from, globals, r.canMinor, places, base);
  }
}
