/** The hash-cons table (runtime/gc/hash-cons.c:99-280): open addressing with double hashing, seen as
  a map from object contents to the one stored object that has them. */
module HashCons {
  import opened Arithmetic
  import opened Probing

  /** An object without identity; its header fixes whether it is an array. */
  datatype Object = Normal(header: nat, words: seq<nat>) | Array(header: nat, length: nat, words: seq<nat>)

  /** The bytes of an object with its header (lines 266-274). */
  function SizeOf(o: Object): nat {
    match o
    case Normal(_, words) => 4 * |words| + GC_NORMAL_HEADER_SIZE
    case Array(_, _, words) => 4 * |words| + GC_ARRAY_HEADER_SIZE
  }

  const GC_NORMAL_HEADER_SIZE := 4
  const GC_ARRAY_HEADER_SIZE := 12

  datatype Elem = Empty | Full(hash: nat, obj: nat)

  /** The size of an object follows from its header and, for an array, its length. */
  ghost predicate Sized(objs: seq<Object>) {
    forall a, b | a in objs && b in objs && a.header == b.header ::
      (a.Array? <==> b.Array?) && (a.Normal? || a.length == b.length ==> |a.words| == |b.words|)
  }

  /** The hash of the first `n` words (lines 259-261). */
  function HashWords(header: nat, words: seq<nat>, n: nat): nat
    requires n <= |words|
  {
    if n == 0 then header % WORD else (HashWords(header, words, n - 1) * 31 + words[n - 1]) % WORD
  }

  function HashOf(o: Object): nat { HashWords(o.header, o.words, |o.words|) }

  function First(mult: nat, hash: nat, log2: nat): (r: nat)
    requires log2 <= 32
    ensures r < Pow2(log2) <= WORD
  {
    FirstSlotBound(mult, hash, log2);
    Pow32();
    PowAdd(log2, 32 - log2);
    MulGe(Pow2(log2), Pow2(32 - log2));
    FirstSlot(mult, hash, log2)
  }

  /** A table: its slots, the logarithm of its size, the multiplier, and the objects it points to. */
  datatype View = View(es: seq<Elem>, log2: nat, mult: nat, objs: seq<Object>) {
    ghost predicate Size() { TableSize(|es|, log2) && |es| <= WORD }

    /** The slot of probe number `j` for a hash. */
    function At(hash: nat, j: nat): (r: nat)
      requires 1 <= log2 <= 32 && |es| == Pow2(log2)
      ensures r < |es|
    {
      SlotAt(First(mult, hash, log2), |es|, j)
    }

    ghost predicate Stored() {
      forall i | 0 <= i < |es| && es[i].Full? :: es[i].obj < |objs| && es[i].hash == HashOf(objs[es[i].obj])
    }

    /** The slots probed before number `j` are taken. */
    ghost predicate Taken(hash: nat, j: nat)
      requires Size()
    {
      forall k: nat | k < j :: es[At(hash, k)].Full?
    }

    /** Every stored element is found by probing for its hash. */
    ghost predicate Findable()
      requires Size()
    {
      forall i | 0 <= i < |es| && es[i].Full? :: exists j: nat :: At(es[i].hash, j) == i && Taken(es[i].hash, j)
    }

    /** The stored objects are the representatives `reps`, each stored once. */
    ghost predicate Holds(reps: map<Object, nat>)
      requires Stored()
    {
      && (forall i | 0 <= i < |es| && es[i].Full? ::
            objs[es[i].obj] in reps && reps[objs[es[i].obj]] == es[i].obj)
      && (forall c | c in reps :: exists i ::
          0 <= i < |es| && es[i].Full? && es[i].obj == reps[c] && objs[reps[c]] == c)
      && (forall i, j | 0 <= i < j < |es| && es[i].Full? && es[j].Full? :: es[i].obj != es[j].obj)
    }

    ghost predicate Ok(reps: map<Object, nat>) {
      Size() && Stored() && Findable() && Holds(reps)
    }

    ghost function Occupied(n: nat): (r: set<nat>)
      requires n <= |es|
      ensures forall i: nat :: i in r <==> i < n && es[i].Full?
    {
      if n == 0 then {} else Occupied(n - 1) + if es[n - 1].Full? then {n - 1} else {}
    }

    ghost function Count(): nat { |Occupied(|es|)| }

    function Put(slot: nat, e: Elem): View
      requires slot < |es|
    {
      this.(es := es[slot := e])
    }

    /** As long as a slot is free, probing finds one. */
    lemma RoomLeft(hash: nat, j: nat)
      requires Size() && Taken(hash, j) && j <= |es| && Count() < |es|
      ensures j < |es|
    {
      var first := First(mult, hash, log2);
      VisitedSize(first, |es|, log2, j);
      forall s | s in Visited(first, |es|, j) ensures s in Occupied(|es|) {
        var k := VisitedAt(first, |es|, j, s);
        assert s == At(hash, k);
      }
      SubsetSize(Visited(first, |es|, j), Occupied(|es|));
    }

    lemma NoneTaken(hash: nat)
      requires Size()
      ensures Taken(hash, 0) && At(hash, 0) == First(mult, hash, log2)
    {}

    lemma OneMore(hash: nat, j: nat)
      requires Size() && Taken(hash, j) && es[At(hash, j)].Full?
      ensures Taken(hash, j + 1)
      ensures At(hash, j + 1) == NextSlot(At(hash, j), Probe(First(mult, hash, log2)), |es|)
    {}

    /** Contents that no probe before an empty slot has met are not in the table. */
    lemma NotThere(reps: map<Object, nat>, c: Object, j: nat)
      requires Ok(reps) && Taken(HashOf(c), j) && es[At(HashOf(c), j)].Empty?
      requires forall k: nat | k < j :: var e := es[At(HashOf(c), k)]; e.Full? && e.obj < |objs| && objs[e.obj] != c
      ensures c !in reps
    {
      if c in reps {
        var i, k := PathTo(reps, c);
        ProbedBefore(HashOf(c), j, k, i);
      }
    }

    /** Where the representative of some contents is stored. */
    lemma PathTo(reps: map<Object, nat>, c: Object) returns (i: nat, k: nat)
      requires Ok(reps) && c in reps
      ensures i < |es| && es[i].Full? && es[i].obj < |objs| && objs[es[i].obj] == c
      ensures At(HashOf(c), k) == i && Taken(HashOf(c), k)
    {
      i :| 0 <= i < |es| && es[i].Full? && es[i].obj == reps[c] && objs[reps[c]] == c;
      k :| At(es[i].hash, k) == i && Taken(es[i].hash, k);
    }

    /** An element on a probe path lies before the first empty slot of the path. */
    lemma ProbedBefore(hash: nat, j: nat, k: nat, i: nat)
      requires Size() && At(hash, k) == i && Taken(hash, k) && es[i].Full? && es[At(hash, j)].Empty?
      ensures k < j
    {}

    // ---------------------------------------------------------------- growing

    /** The representatives among the first `n` slots. */
    ghost function Restrict(reps: map<Object, nat>, n: nat): map<Object, nat> {
      map c | c in reps && HasBefore(n, reps[c]) :: reps[c]
    }

    ghost predicate HasBefore(n: nat, o: nat) {
      exists i: nat :: i < n && i < |es| && es[i].Full? && es[i].obj == o
    }

    lemma RestrictNone(reps: map<Object, nat>)
      ensures Restrict(reps, 0) == map[] && Occupied(0) == {}
    {}

    lemma BeforeStep(n: nat, o: nat)
      requires n < |es|
      ensures HasBefore(n + 1, o) <==> HasBefore(n, o) || (es[n].Full? && es[n].obj == o)
    {}

    lemma RestrictStep(reps: map<Object, nat>, n: nat)
      requires Ok(reps) && n < |es|
      ensures es[n].Empty? ==> Restrict(reps, n + 1) == Restrict(reps, n) && Occupied(n + 1) == Occupied(n)
      ensures es[n].Full? ==>
                && es[n].obj < |objs| && objs[es[n].obj] !in Restrict(reps, n) && es[n].hash == HashOf(objs[es[n].obj])
                && Restrict(reps, n + 1) == Restrict(reps, n)[objs[es[n].obj] := es[n].obj]
                && |Occupied(n + 1)| == |Occupied(n)| + 1
    {
      OccupiedStep(n);
      if es[n].Full? { RestrictFull(reps, n); } else { RestrictEmpty(reps, n); }
    }

    lemma RestrictEmpty(reps: map<Object, nat>, n: nat)
      requires n < |es| && es[n].Empty?
      ensures Restrict(reps, n + 1) == Restrict(reps, n)
    {
      forall c | c in reps ensures HasBefore(n + 1, reps[c]) <==> HasBefore(n, reps[c]) { BeforeStep(n, reps[c]); }
      hide View.HasBefore;
    }

    lemma RestrictFull(reps: map<Object, nat>, n: nat)
      requires Ok(reps) && n < |es| && es[n].Full?
      ensures es[n].obj < |objs| && es[n].hash == HashOf(objs[es[n].obj]) && objs[es[n].obj] !in Restrict(reps, n)
      ensures Restrict(reps, n + 1) == Restrict(reps, n)[objs[es[n].obj] := es[n].obj]
    {
      NewHere(reps, n);
      hide View.Ok, View.HasBefore;
      forall c | c in reps
        ensures HasBefore(n + 1, reps[c]) <==> HasBefore(n, reps[c]) || c == objs[es[n].obj]
      {
        BeforeStep(n, reps[c]);
      }
    }

    lemma OccupiedStep(n: nat)
      requires n < |es|
      ensures es[n].Empty? ==> Occupied(n + 1) == Occupied(n)
      ensures es[n].Full? ==> |Occupied(n + 1)| == |Occupied(n)| + 1
    {}

    /** The object in slot `n` is in no slot before, and nothing else has its contents. */
    lemma NewHere(reps: map<Object, nat>, n: nat)
      requires Ok(reps) && n < |es| && es[n].Full?
      ensures es[n].obj < |objs| && es[n].hash == HashOf(objs[es[n].obj]) && !HasBefore(n, es[n].obj)
      ensures objs[es[n].obj] in reps && reps[objs[es[n].obj]] == es[n].obj
      ensures forall d | d in reps && reps[d] == es[n].obj :: d == objs[es[n].obj]
    {
      hide View.Findable, View.Size, HashWords;
    }

    lemma RestrictAll(reps: map<Object, nat>)
      requires Ok(reps)
      ensures Restrict(reps, |es|) == reps && |Occupied(|es|)| == Count()
    {}

    lemma {:induction false} OccupiedPart(n: nat)
      requires n <= |es|
      ensures |Occupied(n)| <= Count()
    {
      SubsetSize(Occupied(n), Occupied(|es|));
    }

    lemma {:induction false} EmptyOccupied(n: nat)
      requires n <= |es| && forall i | 0 <= i < |es| :: es[i].Empty?
      ensures Occupied(n) == {}
    {}

    lemma PutFindable(slot: nat, e: Elem, j: nat)
      requires Size() && Findable() && e.Full? && At(e.hash, j) == slot && Taken(e.hash, j) && es[slot].Empty?
      ensures Put(slot, e).Size() && Put(slot, e).Findable()
    {
      var v := Put(slot, e);
      forall i | 0 <= i < |v.es| && v.es[i].Full?
        ensures exists j: nat :: v.At(v.es[i].hash, j) == i && v.Taken(v.es[i].hash, j)
      {
        var k := j;
        if i != slot {
          assert es[i].Full? && es[i] == v.es[i];
          k :| At(es[i].hash, k) == i && Taken(es[i].hash, k);
        }
        forall l: nat | l < k ensures v.es[v.At(v.es[i].hash, l)].Full? {
          assert v.At(v.es[i].hash, l) == At(v.es[i].hash, l);
        }
        assert v.At(v.es[i].hash, k) == i && v.Taken(v.es[i].hash, k);
      }
    }

    lemma PutHolds(reps: map<Object, nat>, slot: nat, o: nat)
      requires Stored() && Holds(reps) && slot < |es| && es[slot].Empty? && o < |objs| && objs[o] !in reps
      ensures var v := Put(slot, Full(HashOf(objs[o]), o)); v.Stored() && v.Holds(reps[objs[o] := o])
    {
      var v := Put(slot, Full(HashOf(objs[o]), o));
      var reps' := reps[objs[o] := o];
      forall c | c in reps'
        ensures exists i :: 0 <= i < |v.es| && v.es[i].Full? && v.es[i].obj == reps'[c] && objs[reps'[c]] == c
      {
        if c == objs[o] {
          assert v.es[slot].obj == reps'[c];
        } else {
          var i :| 0 <= i < |es| && es[i].Full? && es[i].obj == reps[c] && objs[reps[c]] == c;
          assert v.es[i] == es[i];
        }
      }
    }

    lemma {:induction false} PutOccupied(slot: nat, e: Elem, n: nat)
      requires slot < |es| && es[slot].Empty? && e.Full? && n <= |es|
      ensures Put(slot, e).Occupied(n) == Occupied(n) + if slot < n then {slot} else {}
    {}

    lemma PutCount(slot: nat, e: Elem)
      requires slot < |es| && es[slot].Empty? && e.Full?
      ensures Put(slot, e).Count() == Count() + 1
    {
      PutOccupied(slot, e, |es|);
    }
  }

  lemma BelowWord(k: nat)
    requires k <= 32 && Pow2(k) < WORD
    ensures k < 32
  {
    if k == 32 { Pow32(); }
  }

  /** The largest power of two that fits, at least 64 (lines 57-78). */
  method LargestFit(space: nat) returns (max: nat, log2: nat)
    requires space * 8 < WORD
    ensures 64 <= max && max + 3 < WORD && TableSize(max, log2) && (space >= 64 ==> max <= space < 2 * max)
  {
    max, log2 := 64, 6;
    Pow6();
    if space >= max {
      while max <= space
        invariant 6 <= log2 <= 32 && max == Pow2(log2) && (max == 64 || 128 <= max) && max <= 2 * space
        decreases 2 * space - max
      {
        BelowWord(log2);
        max, log2 := max * 2, log2 + 1;
      }
      Halve(log2);
      max, log2 := max / 2, log2 - 1;
    }
  }

  lemma Pow6()
    ensures Pow2(6) == 64
  {}

  lemma Halve(k: nat)
    requires k > 0
    ensures Pow2(k) == 2 * Pow2(k - 1)
  {}

  class Table {
    const objs: seq<Object>
    const mult: nat
    var elements: array<Elem>
    var elementsLengthMax: nat
    var elementsLengthMaxLog2: nat
    var elementsLengthCur: nat
    var mayInsert: bool
    var bytesHashConsed: nat
    ghost var reps: map<Object, nat>

    ghost function Now(): View
      reads this, elements
    {
      View(elements[..], elementsLengthMaxLog2, mult, objs)
    }

    /** A slot is always free; elementsLengthCur counts at least the stored elements. */
    ghost predicate Valid()
      reads this, elements
    {
      && Sized(objs) && elements.Length == elementsLengthMax && Now().Ok(reps)
      && Now().Count() <= elementsLengthCur && Now().Count() < elementsLengthMax
    }

    /** What the growth policy keeps between operations: half of the table is free for as long as
      insertion is allowed, and elementsLengthCur fits in a word. */
    ghost predicate Roomy()
      reads this, elements
    {
      && elementsLengthMax >= 64 && elementsLengthCur <= elementsLengthMax + 3 < WORD
      && (mayInsert ==> elementsLengthCur <= elementsLengthMax + 2 && 2 * Now().Count() <= elementsLengthMax)
    }

    /** allocHashTable (lines 29-91): `space` elements fit in the unused part of the heap. */
    constructor (objects: seq<Object>, multiplier: nat, space: nat)
      requires Sized(objects) && space * 8 < WORD
      ensures Valid() && Roomy() && fresh(elements) && objs == objects && reps == map[]
      ensures elementsLengthMax >= 64 && (space >= 64 ==> elementsLengthMax <= space < 2 * elementsLengthMax)
    {
      objs, mult := objects, multiplier;
      var max, log2 := LargestFit(space);
      elements := new Elem[max](_ => Empty);
      elementsLengthMax, elementsLengthMaxLog2, elementsLengthCur, mayInsert := max, log2, 0, true;
      bytesHashConsed := 0;
      reps := map[];
      new;
      hide TableSize, Pow2;
      SizeDividesWord(max, log2);
      Now().EmptyOccupied(max);
    }

    /** The comparison of insertHashTableElem (lines 165-182). Words past the end of the stored object
      may read as anything. */
    method SameContents(o: nat, e: nat) returns (r: bool)
      requires Sized(objs) && o < |objs| && e < |objs|
      ensures r <==> objs[o] == objs[e]
    {
      if o == e { return true; }
      if objs[o].header != objs[e].header { return false; }
      assert objs[o] in objs && objs[e] in objs;
      var w, v := objs[o].words, objs[e].words;
      for k := 0 to |w|
        invariant forall l | 0 <= l < k && l < |v| :: w[l] == v[l]
      {
        var same: bool := *;
        if k < |v| { same := w[k] == v[k]; }
        if !same {
          if k >= |v| { assert |w| != |v|; }
          return false;
        }
      }
      if objs[o].Array? && objs[o].length != objs[e].length { return false; }
      assert w == v;
      return true;
    }

    /** The probe loop of insertHashTableElem (lines 125-184): it ends at an object with the same
      contents or at an empty slot. */
    method Search(hash: nat, obj: nat, mightBeThere: bool) returns (slot: nat, ghost j: nat)
      requires Valid() && obj < |objs| && hash == HashOf(objs[obj])
      requires !mightBeThere ==> objs[obj] !in reps
      ensures slot == Now().At(hash, j) && Now().Taken(hash, j)
      ensures elements[slot].Full? ==> objs[obj] in reps && reps[objs[obj]] == elements[slot].obj
      ensures elements[slot].Empty? ==> objs[obj] !in reps
    {
      hide View.Findable, View.Holds, View.Occupied, TableSize, Sized, Probe, Pow2, FirstSlot, NextSlot, View.Taken,
        View.Stored;
      ghost var v, c := Now(), objs[obj];
      Elements();
      slot := First(mult, hash, elementsLengthMaxLog2);
      var probe := Probe(slot);
      j := 0;
      v.NoneTaken(hash);
      v.RoomLeft(hash, 0);
      while true
        invariant j < elementsLengthMax && slot == v.At(hash, j) && v.Taken(hash, j) &&
                  elements.Length == elementsLengthMax
        invariant forall k: nat | k < j ::
                    v.es[v.At(hash, k)].Full? && v.es[v.At(hash, k)].obj < |objs| && objs[v.es[v.At(hash, k)].obj] != c
        decreases elementsLengthMax - j
      {
        var e := elements[slot];
        assert e == v.es[slot];
        if e.Empty? {
          v.NotThere(reps, c, j);
          return;
        }
        Elements();
        if hash == e.hash && mightBeThere {
          var same := SameContents(obj, e.obj);
          if same {
            Found(v, slot, c);
            return;
          }
        }
        NotHere(v, slot, c, mightBeThere);
        v.OneMore(hash, j);
        slot := NextSlot(slot, probe, elementsLengthMax);
        j := j + 1;
        v.RoomLeft(hash, j);
      }
    }

    lemma Elements()
      requires Valid()
      ensures Sized(objs) && Now().Size() && elements.Length == elementsLengthMax > 0 &&
              1 <= elementsLengthMaxLog2 <= 32
      ensures Pow2(elementsLengthMaxLog2) == elementsLengthMax <= WORD
      ensures forall i | 0 <= i < elements.Length && elements[i].Full? :: elements[i].obj < |objs|
    {
      SizeDividesWord(elementsLengthMax, elementsLengthMaxLog2);
      forall i | 0 <= i < elements.Length && elements[i].Full? ensures elements[i].obj < |objs| {
        assert Now().es[i] == elements[i];
      }
    }

    /** insertHashTableElem (lines 99-185). */
    method InsertHashTableElem(hash: nat, obj: nat, mightBeThere: bool) returns (res: nat)
      requires Valid() && obj < |objs| && hash == HashOf(objs[obj])
      requires !mightBeThere ==> objs[obj] !in reps
      requires mayInsert ==> Now().Count() + 1 < elementsLengthMax
      modifies `elementsLengthCur, `reps, elements
      ensures Valid()
      ensures res == if objs[obj] in old(reps) then old(reps)[objs[obj]] else obj
      ensures reps == if objs[obj] !in old(reps) && mayInsert then old(reps)[objs[obj] := obj] else old(reps)
      ensures Now().Count() == old(Now().Count()) + (if objs[obj] !in old(reps) && mayInsert then 1 else 0)
      ensures elementsLengthCur == old(elementsLengthCur) + (if objs[obj] !in old(reps) && mayInsert then 1 else 0)
    {
      hide View.Findable, View.Holds, View.Occupied, TableSize, View.Taken, View.Stored, View.At;
      ghost var v, c := Now(), objs[obj];
      var slot;
      ghost var j;
      slot, j := Search(hash, obj, mightBeThere);
      var e := elements[slot];
      assert e == v.es[slot];
      if e.Full? { return e.obj; }
      res := obj;
      if mayInsert {
        v.PutFindable(slot, Full(hash, obj), j);
        v.PutHolds(reps, slot, obj);
        v.PutCount(slot, Full(hash, obj));
        elements[slot] := Full(hash, obj);
        elementsLengthCur := elementsLengthCur + 1;
        reps := reps[c := obj];
        assert Now() == v.Put(slot, Full(hash, obj));
      }
    }

    lemma Found(v: View, slot: nat, c: Object)
      requires v.Ok(reps) && slot < |v.es| && v.es[slot].Full? && v.objs[v.es[slot].obj] == c
      ensures c in reps && reps[c] == v.es[slot].obj
    {}

    lemma NotHere(v: View, slot: nat, c: Object, mightBeThere: bool)
      requires v.Ok(reps) && slot < |v.es| && v.es[slot].Full?
      requires !mightBeThere ==> c !in reps
      requires mightBeThere && v.es[slot].hash == HashOf(c) ==> v.objs[v.es[slot].obj] != c
      ensures v.objs[v.es[slot].obj] != c
    {}

    /** The new table is empty (calloc). */
    method Clear(length: nat, log2: nat)
      requires Sized(objs) && TableSize(length, log2) && length <= WORD
      modifies `elements, `elementsLengthMax, `elementsLengthMaxLog2, `reps
      ensures Valid() && reps == map[] && fresh(elements) && Now().Count() == 0
      ensures elementsLengthMax == length && elementsLengthMaxLog2 == log2
    {
      elements := new Elem[length](_ => Empty);
      elementsLengthMax, elementsLengthMaxLog2 := length, log2;
      reps := map[];
      SizeDividesWord(length, log2);
      Now().EmptyOccupied(length);
    }

    /** Lines 215-220: the old elements go into the new table. */
    method Reinsert(oldElements: array<Elem>, ghost v: View, ghost reps0: map<Object, nat>)
      requires Valid() && reps == map[] && Now().Count() == 0 && mayInsert && oldElements != elements
      requires v.Ok(reps0) && v.es == oldElements[..] && v.objs == objs && 2 * |v.es| == elementsLengthMax
      requires v.Count() < |v.es|
      modifies `elementsLengthCur, `reps, elements
      ensures Valid() && reps == reps0 && Now().Count() == v.Count()
      ensures elementsLengthCur == old(elementsLengthCur) + v.Count()
    {
      hide View.Ok, View.Count, View.Occupied, View.Restrict;
      v.RestrictNone(reps0);
      for i := 0 to oldElements.Length
        invariant Valid() && reps == v.Restrict(reps0, i) && Now().Count() == |v.Occupied(i)|
        invariant elementsLengthCur == old(elementsLengthCur) + |v.Occupied(i)|
        invariant oldElements[..] == v.es
      {
        var oldElement := oldElements[i];
        assert oldElement == v.es[i];
        v.RestrictStep(reps0, i);
        v.OccupiedPart(i);
        if oldElement.Full? {
          var _ := InsertHashTableElem(oldElement.hash, oldElement.obj, false);
        }
      }
      v.RestrictAll(reps0);
    }

    /** growHashTableMaybe (lines 187-227). The allocation fails at the latest when the elements, of
      eight bytes each, would fill the address space. */
    method GrowHashTableMaybe(granted: bool)
      requires Valid() && elementsLengthMax >= 64 && elementsLengthCur <= elementsLengthMax + 3 < WORD
      requires mayInsert ==> 2 * Now().Count() <= elementsLengthMax + 2
      requires granted ==> 2 * elementsLengthMax * 8 < WORD
      modifies this, elements
      ensures Valid() && Roomy() && reps == old(reps) && bytesHashConsed == old(bytesHashConsed)
      ensures elements == old(elements) || fresh(elements)
      ensures elementsLengthMax ==
              if old(mayInsert) && 2 * old(elementsLengthCur) > old(elementsLengthMax) && granted
              then 2 * old(elementsLengthMax) else old(elementsLengthMax)
      ensures mayInsert <==> old(mayInsert) && (2 * old(elementsLengthCur) <= old(elementsLengthMax) || granted)
    {
      hide View.Ok, View.Count, Sized;
      if !mayInsert || elementsLengthCur * 2 <= elementsLengthMax { return; }
      if !granted {
        mayInsert := false;
        return;
      }
      ghost var v, reps0 := Now(), reps;
      var oldElements, oldElementsLengthMax := elements, elementsLengthMax;
      SizeDoubles();
      Clear(2 * oldElementsLengthMax, elementsLengthMaxLog2 + 1);
      Reinsert(oldElements, v, reps0);
    }

    lemma SizeDoubles()
      requires Valid() && 2 * elementsLengthMax * 8 < WORD
      ensures TableSize(2 * elementsLengthMax, elementsLengthMaxLog2 + 1)
    {
      Pow32();
    }

    /** Lines 258-261. */
    method ComputeHash(o: Object) returns (hash: nat)
      ensures hash == HashOf(o)
    {
      hash := o.header % WORD;
      for p := 0 to |o.words|
        invariant hash == HashWords(o.header, o.words, p)
      {
        hash := (hash * 31 + o.words[p]) % WORD;
      }
    }

    /** hashConsPointer (lines 229-280): an object without identity is replaced by the stored object with
      its contents; the first one becomes the stored one, unless the table may not grow any more. The bytes
      of an object are counted exactly when another one takes its place. */
    method HashConsPointer(obj: nat, hasIdentity: bool, countBytesHashConsed: bool, granted: bool)
      returns (res: nat)
      requires Valid() && Roomy() && obj < |objs| && (granted ==> 2 * elementsLengthMax * 8 < WORD)
      modifies this, elements
      ensures Valid() && Roomy() && (elements == old(elements) || fresh(elements))
      ensures hasIdentity ==> res == obj && reps == old(reps)
      ensures !hasIdentity && objs[obj] in old(reps) ==> res == old(reps)[objs[obj]] && reps == old(reps)
      ensures !hasIdentity && objs[obj] !in old(reps) ==>
                res == obj && reps == if old(mayInsert) then old(reps)[objs[obj] := obj] else old(reps)
      ensures bytesHashConsed == old(bytesHashConsed) +
                                 if countBytesHashConsed && res != obj then SizeOf(objs[obj]) else 0
    {
      hide View.Ok, View.Count, Sized, HashWords;
      if hasIdentity { return obj; }
      var hash := ComputeHash(objs[obj]);
      ghost var bytes := bytesHashConsed;
      res := InsertHashTableElem(hash, obj, true);
      GrowHashTableMaybe(granted);
      if countBytesHashConsed && res != obj {
        var amount := 4 * |objs[obj].words|;
        amount := amount + if objs[obj].Array? then GC_ARRAY_HEADER_SIZE else GC_NORMAL_HEADER_SIZE;
        bytesHashConsed := bytesHashConsed + amount;
      }
    }
  }
}
