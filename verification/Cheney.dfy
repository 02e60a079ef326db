/** Cheney copying (runtime/gc/forward.c:26-144, cheney-copy.c:14-38 and 79-88, foreach.c:317-342).

  The space being emptied is `from`; for a minor collection that is the nursery, and `Old` values
  point outside it. Objects are named by their position in their space. */
module Cheney {
  import Reachability

  datatype Value = Raw(bits: int) | From(obj: nat) | Old(obj: nat) | To(obj: nat)

  /** A valid weak object has one slot, its weak pointer; a cleared one has the WEAK_GONE header. */
  datatype Kind = Normal | Weak | WeakGone

  /** An object: its size with its header, its non-pointer data and its pointer slots. */
  datatype Obj = Obj(kind: Kind, size: nat, data: seq<int>, slots: seq<Value>)

  ghost predicate ObjOk(from: seq<Obj>, o: Obj) {
    && o.size > 0
    && (o.kind.Weak? ==> |o.slots| == 1)
    && (forall v | v in o.slots :: !v.To? && (v.From? ==> v.obj < |from|))
  }

  ghost predicate SpaceOk(from: seq<Obj>) {
    forall i | 0 <= i < |from| :: ObjOk(from, from[i])
  }

  /** The pointers that keep their target alive: all but the pointer of a weak object. */
  predicate Strong(o: Obj, v: Value) {
    !o.kind.Weak? && v in o.slots
  }

  // ------------------------------------------------------------------ reachability

  /** The objects that each object keeps alive. */
  ghost function Edges(from: seq<Obj>): (r: Reachability.Edges)
    ensures |r| == |from| && forall p: nat, q | p < |from| :: q in r[p] <==> Strong(from[p], From(q))
  {
    seq(|from|, p requires 0 <= p < |from| => set v | v in from[p].slots && Strong(from[p], v) && v.From? :: v.obj)
  }

  /** Object `p` is reached from the roots along strong pointers. */
  ghost predicate Reached(from: seq<Obj>, roots: set<nat>, p: nat) { Reachability.Reached(Edges(from), roots, p) }

  // ------------------------------------------------------------------ space accounting

  function Total(from: seq<Obj>): nat {
    if from == [] then 0 else Total(from[..|from| - 1]) + from[|from| - 1].size
  }

  /** The words of the objects that have not been copied. */
  function Uncopied(from: seq<Obj>, fwd: seq<int>): nat
    requires |fwd| == |from|
  {
    if from == [] then 0
    else var n := |from| - 1;
         Uncopied(from[..n], fwd[..n]) + if fwd[n] < 0 then from[n].size else 0
  }

  lemma {:induction false} NothingCopied(from: seq<Obj>, fwd: seq<int>)
    requires |fwd| == |from| && forall i | 0 <= i < |fwd| :: fwd[i] < 0
    ensures Uncopied(from, fwd) == Total(from)
  {
    if from != [] { NothingCopied(from[..|from| - 1], fwd[..|from| - 1]); }
  }

  /** Copying an object moves its words from one side of the account to the other. */
  lemma {:induction false} CopyOne(from: seq<Obj>, fwd: seq<int>, p: nat, j: nat)
    requires |fwd| == |from| && p < |from| && fwd[p] < 0
    ensures Uncopied(from, fwd) == Uncopied(from, fwd[p := j]) + from[p].size
  {
    var n := |from| - 1;
    if p < n {
      CopyOne(from[..n], fwd[..n], p, j);
      assert fwd[p := j][..n] == fwd[..n][p := j];
    } else {
      assert fwd[p := j][..n] == fwd[..n];
    }
  }

  // ------------------------------------------------------------------ the copy of an object

  /** What a slot becomes once every live object has been copied. */
  function Image(v: Value, fwd: seq<int>): Value {
    match v
    case From(q) => if q < |fwd| && fwd[q] >= 0 then To(fwd[q]) else v
    case _ => v
  }

  function Images(s: seq<Value>, fwd: seq<int>): (r: seq<Value>)
    ensures |r| == |s| && forall i | 0 <= i < |s| :: r[i] == Image(s[i], fwd)
  {
    seq(|s|, i requires 0 <= i < |s| => Image(s[i], fwd))
  }

  /** The copy of `o` after the scan: weak pointers are skipped. */
  function Scanned(o: Obj, fwd: seq<int>): Obj {
    if o.kind.Weak? then o else o.(slots := Images(o.slots, fwd))
  }

  /** The copy of `o` at the end: a weak pointer to an object that was not copied is cleared. */
  function Copy(o: Obj, fwd: seq<int>): Obj {
    if o.kind.Weak? && |o.slots| == 1 && o.slots[0].From? && Image(o.slots[0], fwd) == o.slots[0]
    then o.(kind := WeakGone, slots := [])
    else o.(slots := Images(o.slots, fwd))
  }

  /** A weak object that forwardObjptr links for the update after the scan (lines 94-108). */
  predicate Linked(o: Obj) {
    o.kind.Weak? && |o.slots| == 1 && o.slots[0].From?
  }

  /** The live part of `from` and its copy: `fwd` is a bijection from the copied objects onto the
    to-space, `origin` is its inverse. */
  ghost predicate Bijection(fwd: seq<int>, origin: seq<nat>) {
    && (forall j | 0 <= j < |origin| :: origin[j] < |fwd| && fwd[origin[j]] == j)
    && (forall p | 0 <= p < |fwd| && fwd[p] >= 0 :: fwd[p] < |origin| && origin[fwd[p]] == p)
  }

  /** Everything a collection has copied so far. `weaks` lists the linked weak copies. */
  datatype Copied = Copied(from: seq<Obj>, roots: set<nat>, fwd: seq<int>, origin: seq<nat>,
                           to: seq<Obj>, weaks: seq<nat>)
  {
    function Source(j: nat): Obj
      requires j < |origin| && origin[j] < |from|
    {
      from[origin[j]]
    }

    ghost predicate Ok() {
      && SpaceOk(from) && |fwd| == |from| && |to| == |origin|
      && Bijection(fwd, origin)
      && (forall p | 0 <= p < |fwd| && fwd[p] >= 0 :: Reached(from, roots, p))
    }

    ghost predicate WeaksOk()
      requires Ok()
    {
      && (forall i, j | 0 <= i < j < |weaks| :: weaks[i] != weaks[j])
      && (forall j | j in weaks :: j < |to| && Linked(Source(j)))
      && (forall j | 0 <= j < |to| && Linked(Source(j)) :: j in weaks)
    }

    /** The first `n` pointers of `o` lead to objects that have been copied. */
    ghost predicate Kept(o: Obj, n: nat)
      requires |fwd| == |from|
    {
      n <= |o.slots| &&
      (!o.kind.Weak? ==> forall i | 0 <= i < n && o.slots[i].From? ::
                           o.slots[i].obj < |fwd| && fwd[o.slots[i].obj] >= 0)
    }

    ghost predicate DoneAt(j: nat)
      requires Ok() && j < |to|
    {
      to[j] == Scanned(Source(j), fwd) && Kept(Source(j), |Source(j).slots|)
    }

    ghost predicate FreshAt(j: nat)
      requires Ok() && j < |to|
    {
      to[j] == Source(j)
    }

    /** The scan is at slot `i` of the copy number `scan`. */
    ghost predicate Scanning(scan: nat, i: nat) {
      && Ok() && WeaksOk() && scan <= |to|
      && (forall j | 0 <= j < scan :: DoneAt(j))
      && (forall j | scan < j < |to| :: FreshAt(j))
      && (scan == |to| ==> i == 0)
      && (scan < |to| ==> Kept(Source(scan), i) && to[scan] == Partial(Source(scan), fwd, i))
    }

    /** forwardObjptr on an object that has not been forwarded. */
    function Forward(p: nat): Copied
      requires p < |fwd| && p < |from|
    {
      this.(fwd := fwd[p := |to|], origin := origin + [p], to := to + [from[p]],
            weaks := if Linked(from[p]) then [|to|] + weaks else weaks)
    }

    function WriteSlot(j: nat, i: nat, v: Value): Copied
      requires j < |to| && i < |to[j].slots|
    {
      this.(to := to[j := to[j].(slots := to[j].slots[i := v])])
    }
  }

  /** The copy of `o` while its first `i` slots have been scanned. */
  function Partial(o: Obj, fwd: seq<int>, i: nat): Obj
    requires i <= |o.slots|
  {
    if o.kind.Weak? then o else o.(slots := Images(o.slots[..i], fwd) + o.slots[i..])
  }

  lemma ImagesStable(s: seq<Value>, fwd: seq<int>, p: nat, j: nat)
    requires p < |fwd| && fwd[p] < 0
    requires forall i | 0 <= i < |s| && s[i].From? :: s[i].obj < |fwd| && fwd[s[i].obj] >= 0
    ensures Images(s, fwd[p := j]) == Images(s, fwd)
  {}

  lemma ForwardOk(c: Copied, p: nat)
    requires c.Ok() && p < |c.from| && c.fwd[p] < 0 && Reached(c.from, c.roots, p)
    ensures c.Forward(p).Ok()
  {}

  lemma ForwardWeaks(c: Copied, p: nat)
    requires c.Ok() && c.WeaksOk() && p < |c.from| && c.Forward(p).Ok()
    ensures c.Forward(p).WeaksOk()
  {
    var c' := c.Forward(p);
    forall j | 0 <= j < |c.to| ensures c'.Source(j) == c.Source(j) {}
    forall j | 0 <= j < |c'.to| && Linked(c'.Source(j)) ensures j in c'.weaks {
      if j < |c.to| { assert j in c.weaks; }
    }
    forall i, j | 0 <= i < j < |c'.weaks| ensures c'.weaks[i] != c'.weaks[j] {
      if Linked(c.from[p]) {
        assert c'.weaks[j] == c.weaks[j - 1] && c.weaks[j - 1] in c.weaks;
      }
    }
  }

  /** Copying an object disturbs no copy made before. */
  lemma ForwardScanning(c: Copied, p: nat, scan: nat, i: nat)
    requires c.Scanning(scan, i) && p < |c.from| && c.fwd[p] < 0 && Reached(c.from, c.roots, p)
    ensures c.Forward(p).Scanning(scan, i)
  {
    var c' := c.Forward(p);
    ForwardOk(c, p);
    ForwardWeaks(c, p);
    forall j | 0 <= j < scan ensures c'.DoneAt(j) {
      assert c.DoneAt(j) && c'.Source(j) == c.Source(j);
      if !c.Source(j).kind.Weak? { ImagesStable(c.Source(j).slots, c.fwd, p, |c.to|); }
    }
    forall j | scan < j < |c'.to| ensures c'.FreshAt(j) {
      if j < |c.to| { assert c.FreshAt(j); }
    }
    if scan < |c.to| {
      assert c'.Source(scan) == c.Source(scan);
      if !c.Source(scan).kind.Weak? { ImagesStable(c.Source(scan).slots[..i], c.fwd, p, |c.to|); }
    } else {
      assert c'.to[scan] == c.from[p] == c'.Source(scan);
      assert Images(c.from[p].slots[..0], c'.fwd) + c.from[p].slots[0..] == c.from[p].slots;
    }
  }

  /** Slot `i` of the copy being scanned holds the original pointer. */
  lemma SlotIsOriginal(c: Copied, scan: nat, i: nat)
    requires c.Scanning(scan, i) && scan < |c.to| && i < |c.Source(scan).slots|
    ensures |c.to[scan].slots| == |c.Source(scan).slots| && c.to[scan].slots[i] == c.Source(scan).slots[i]
    ensures c.to[scan].kind == c.Source(scan).kind
  {}

  lemma SlotScanned(c: Copied, scan: nat, i: nat)
    requires c.Scanning(scan, i) && scan < |c.to| && !c.Source(scan).kind.Weak? && i < |c.Source(scan).slots|
    requires var v := c.Source(scan).slots[i]; v.From? ==> v.obj < |c.fwd| && c.fwd[v.obj] >= 0
    ensures |c.to[scan].slots| == |c.Source(scan).slots|
    ensures c.WriteSlot(scan, i, Image(c.Source(scan).slots[i], c.fwd)).Scanning(scan, i + 1)
  {
    var o := c.Source(scan);
    var c' := c.WriteSlot(scan, i, Image(o.slots[i], c.fwd));
    forall j | 0 <= j < scan ensures c'.DoneAt(j) { assert c.DoneAt(j); }
    forall j | scan < j < |c'.to| ensures c'.FreshAt(j) { assert c.FreshAt(j); }
    var s := (Images(o.slots[..i], c.fwd) + o.slots[i..])[i := Image(o.slots[i], c.fwd)];
    var t := Images(o.slots[..i + 1], c.fwd) + o.slots[i + 1..];
    forall k | 0 <= k < |s| ensures s[k] == t[k] {}
    assert s == t;
  }

  lemma ObjectScanned(c: Copied, scan: nat, i: nat)
    requires c.Scanning(scan, i) && scan < |c.to|
    requires c.Source(scan).kind.Weak? || i == |c.Source(scan).slots|
    ensures c.Scanning(scan + 1, 0)
  {
    var o := c.Source(scan);
    if !o.kind.Weak? { assert o.slots[..i] == o.slots && o.slots[i..] == []; }
    assert c.DoneAt(scan);
    if scan + 1 < |c.to| {
      assert c.FreshAt(scan + 1);
      var o' := c.Source(scan + 1);
      assert Images(o'.slots[..0], c.fwd) + o'.slots[0..] == o'.slots;
    }
  }

  // ------------------------------------------------------------------ the collector

  lemma {:induction false} TotalAppend(s: seq<Obj>, o: Obj)
    ensures Total(s + [o]) == Total(s) + o.size
  {}

  /** Writing a slot does not change how much space the copies take. */
  lemma {:induction false} TotalSameSizes(s: seq<Obj>, t: seq<Obj>)
    requires |s| == |t| && forall i | 0 <= i < |s| :: s[i].size == t[i].size
    ensures Total(s) == Total(t)
  {
    if s != [] { TotalSameSizes(s[..|s| - 1], t[..|t| - 1]); }
  }

  lemma {:induction false} TotalPrefix(s: seq<Obj>, n: nat)
    requires n < |s|
    ensures Total(s[..n + 1]) == Total(s[..n]) + s[n].size
  {
    assert s[..n + 1][..n] == s[..n];
  }

  lemma {:induction false} TotalMono(s: seq<Obj>, n: nat)
    requires n <= |s|
    ensures Total(s[..n]) <= Total(s)
    decreases |s| - n
  {
    if n < |s| { TotalPrefix(s, n); TotalMono(s, n + 1); } else { assert s[..n] == s; }
  }

  class Collector {
    const from: seq<Obj>
    const toStart: nat
    const toLimit: nat
    /** The forwarding pointers in the headers of `from`, -1 where there is none. */
    const fwd: array<int>
    var to: seq<Obj>
    var back: nat
    var weaks: seq<nat>
    ghost const roots: set<nat>
    ghost var origin: seq<nat>

    ghost function Now(): Copied
      reads this, fwd
    {
      Copied(from, roots, fwd[..], origin, to, weaks)
    }

    ghost predicate Accounted()
      reads this, fwd
    {
      && fwd.Length == |from|
      && back == toStart + Total(to)
      && Total(to) + Uncopied(from, fwd[..]) == Total(from) <= toLimit - toStart
    }

    /** There is room for the whole space (cheney-copy.c:79, 84; 132). */
    constructor (space: seq<Obj>, start: nat, limit: nat, ghost rs: set<nat>)
      requires SpaceOk(space) && start + Total(space) <= limit
      ensures fresh(fwd) && from == space && toStart == start && toLimit == limit && roots == rs
      ensures Accounted() && Now().Scanning(0, 0) && to == []
    {
      from, toStart, toLimit, roots := space, start, limit, rs;
      fwd := new int[|space|](_ => -1);
      to, back, weaks, origin := [], start, [], [];
      new;
      NothingCopied(from, fwd[..]);
    }

    /** forwardObjptr (forward.c:30-128): the new value of a slot that holds `From(p)`. */
    method ForwardObjptr(p: nat, ghost scan: nat, ghost i: nat) returns (op: Value)
      requires Accounted() && Now().Scanning(scan, i)
      requires p < |from| && Reached(from, roots, p)
      modifies this, fwd
      ensures Accounted() && Now().Scanning(scan, i)
      ensures fwd[p] >= 0 && op == To(fwd[p])
      ensures Now() == if old(fwd[p]) >= 0 then old(Now()) else old(Now()).Forward(p)
      ensures |to| >= old(|to|)
    {
      if fwd[p] < 0 {
        ForwardScanning(Now(), p, scan, i);
        CopyOne(from, fwd[..], p, |to|);
        TotalAppend(to, from[p]);
        ghost var c := Now();
        assert back + from[p].size <= toLimit;
        if Linked(from[p]) {
          weaks := [|to|] + weaks;
        }
        back := back + from[p].size;
        fwd[p] := |to|;
        to := to + [from[p]];
        origin := origin + [p];
        assert fwd[..] == c.fwd[p := |c.to|];
        assert Now() == c.Forward(p);
      }
      op := To(fwd[p]);
    }

    /** callIfIsObjptr with forwardObjptrIfInNursery; with no `Old` pointers about, forwardObjptr. */
    method ForwardValue(v: Value, ghost scan: nat, ghost i: nat) returns (v': Value)
      requires Accounted() && Now().Scanning(scan, i)
      requires v.From? ==> v.obj < |from| && Reached(from, roots, v.obj)
      modifies this, fwd
      ensures Accounted() && Now().Scanning(scan, i)
      ensures v' == Image(v, fwd[..]) && (v.From? ==> v'.To?)
      ensures Extends(old(Now()), Now())
    {
      v' := v;
      if v.From? {
        v' := ForwardObjptr(v.obj, scan, i);
      }
    }

    /** One slot of foreachObjptrInObject on the copy number `scan`. */
    method ScanSlot(scan: nat, i: nat)
      requires Accounted() && Now().Scanning(scan, i) && scan < |to| && i < |to[scan].slots| && !to[scan].kind.Weak?
      modifies this, fwd
      ensures Accounted() && Now().Scanning(scan, i + 1) && Grown(old(Now()), Now(), scan)
    {
      hide Copied.Scanning, Collector.Accounted, Extends, Grown;
      ghost var c := Now();
      SlotReached(c, scan, i);
      var v := ForwardValue(to[scan].slots[i], scan, i);
      SlotStep(c, Now(), scan, i, v);
      WriteSlot(scan, i, v);
    }

    /** foreachObjptrInObject on the copy number `scan`, with skipWeaks. */
    method ScanObject(scan: nat)
      requires Accounted() && Now().Scanning(scan, 0) && scan < |to|
      modifies this, fwd
      ensures Accounted() && Now().Scanning(scan + 1, 0) && Grown(old(Now()), Now(), scan)
    {
      hide Copied.Scanning, Collector.Accounted;
      ghost var c := Now();
      var i := 0;
      GrownRefl(c, scan);
      CopyShape(Now(), scan, i);
      if !to[scan].kind.Weak? {
        while i < |to[scan].slots|
          invariant Accounted() && Now().Scanning(scan, i) && Grown(c, Now(), scan)
          invariant i <= |to[scan].slots|
        {
          ghost var d := Now();
          ScanSlot(scan, i);
          GrownTrans(c, d, Now(), scan);
          i := i + 1;
        }
      }
      CopyShape(Now(), scan, i);
      ObjectScanned(Now(), scan, i);
    }

    method WriteSlot(j: nat, i: nat, v: Value)
      requires j < |to| && i < |to[j].slots| && Accounted()
      modifies this`to
      ensures Now() == old(Now()).WriteSlot(j, i, v) && Accounted()
    {
      TotalSameSizes(to, to[j := to[j].(slots := to[j].slots[i := v])]);
      to := to[j := to[j].(slots := to[j].slots[i := v])];
    }

    /** foreachObjptrInRange (foreach.c:317-342) over the copies, which grow as it runs. */
    method ForeachObjptrInRange()
      requires Accounted() && Now().Scanning(0, 0)
      modifies this, fwd
      ensures Accounted() && Now().Scanning(|to|, 0)
      ensures FwdKept(old(Now()), Now())
    {
      hide *;
      var front, scan: nat := toStart, 0;
      var b := back;
      InRoom();
      RangeBegins(Now());
      while front < b
        invariant Accounted() && RangeAt(Now(), scan, front - toStart) && FwdKept(old(Now()), Now())
        invariant b == back && front <= back
        decreases toLimit - front
      {
        ghost var was := front;
        InRoom();
        while front < b
          invariant Accounted() && RangeAt(Now(), scan, front - toStart) && FwdKept(old(Now()), Now())
          invariant was <= front <= back && b <= back && (front < b || was < front)
          decreases toLimit - front
        {
          InRoom();
          RangeMore(Now(), scan, front - toStart);
          ghost var c := Now();
          var size := to[scan].size;
          ScanObject(scan);
          RangeStep(old(Now()), c, Now(), scan, front - toStart);
          front := front + size;
          scan := scan + 1;
          InRoom();
        }
        b := back;
      }
      InRoom();
      RangeEnds(Now(), scan, front - toStart);
    }

    /** foreachGlobalObjptr with forwardObjptr (cheney-copy.c:82, 138). */
    method ForwardGlobals(globals: array<Value>)
      requires Accounted() && Now().Scanning(0, 0)
      requires GlobalsOk(from, roots, globals[..])
      modifies this, fwd, globals
      ensures Accounted() && Now().Scanning(0, 0) && FwdKept(old(Now()), Now())
      ensures AllMoved(old(globals[..]), globals[..], fwd[..])
    {
      hide Copied.Scanning, Collector.Accounted;
      for k := 0 to globals.Length
        invariant Accounted() && Now().Scanning(0, 0) && FwdKept(old(Now()), Now())
        invariant forall i | k <= i < globals.Length :: globals[i] == old(globals[i])
        invariant forall i | 0 <= i < k :: Moved(old(globals[i]), globals[i], fwd[..])
      {
        ghost var c := Now();
        globals[k] := ForwardValue(globals[k], 0, 0);
        forall i | 0 <= i < k ensures Moved(old(globals[i]), globals[i], fwd[..]) {
          MovedKept(old(globals[i]), globals[i], c, Now());
        }
      }
    }

    /** updateWeaksForCheneyCopy (cheney-copy.c:14-38). */
    method UpdateWeaksForCheneyCopy()
      requires Accounted() && Now().Scanning(|to|, 0)
      modifies this
      ensures Accounted() && origin == old(origin) && weaks == []
      ensures Finished(Now())
    {
      ghost var c := Now();
      hide Collector.Accounted, Copied.Scanning, WeakUpdated, Copy, Finished;
      WeaksBegin(c);
      var k := 0;
      while k < |weaks|
        invariant k <= |weaks| && Now() == c.(to := to)
        invariant Accounted() && WeakUpdated(c, to, k)
      {
        WeakNext(c, to, k);
        var w := weaks[k];
        var q := to[w].slots[0].obj;
        if fwd[q] >= 0 {
          SetObj(w, to[w].(slots := [To(fwd[q])]));
        } else {
          SetObj(w, to[w].(kind := WeakGone, slots := []));
        }
        k := k + 1;
      }
      WeaksEnd(c, to);
      DropWeaks();
    }

    method SetObj(j: nat, o: Obj)
      requires Accounted() && j < |to| && o.size == to[j].size
      modifies this`to
      ensures Accounted() && to == old(to)[j := o]
    {
      TotalSameSizes(to, to[j := o]);
      to := to[j := o];
    }

    method DropWeaks()
      requires Accounted()
      modifies this`weaks
      ensures Accounted() && weaks == []
    {
      weaks := [];
    }

    lemma InRoom()
      requires Accounted()
      ensures back == toStart + Total(Now().to) <= toLimit && Now().to == to
    {}
  }

  /** The scan is at the start of the copy number `scan`, `offset` words into the to-space. */
  ghost predicate RangeAt(c: Copied, scan: nat, offset: int) {
    scan <= |c.to| && c.Scanning(scan, 0) && offset == Total(c.to[..scan])
  }

  ghost predicate FwdKept(c: Copied, d: Copied) {
    d.from == c.from && d.roots == c.roots && |d.fwd| == |c.fwd| && forall q | 0 <= q < |c.fwd| && c.fwd[q] >= 0 ::
        d.fwd[q] == c.fwd[q]
  }

  /** The slot held `v` and now holds `v'`: a pointer into `from` has been replaced by its copy. */
  ghost predicate Moved(v: Value, v': Value, fwd: seq<int>) {
    v' == Image(v, fwd) && !v'.From?
  }

  lemma MovedKept(v: Value, v': Value, c: Copied, d: Copied)
    requires Moved(v, v', c.fwd) && FwdKept(c, d)
    ensures Moved(v, v', d.fwd)
  {}

  lemma RangeBegins(c: Copied)
    requires c.Scanning(0, 0)
    ensures RangeAt(c, 0, 0) && FwdKept(c, c)
  {}

  lemma RangeMore(c: Copied, scan: nat, offset: int)
    requires RangeAt(c, scan, offset) && offset < Total(c.to)
    ensures scan < |c.to| && c.Scanning(scan, 0) && c.to[scan].size > 0
  {
    assert c.to[..|c.to|] == c.to;
    SizePositive(c, scan);
  }

  lemma RangeStep(c0: Copied, c: Copied, d: Copied, scan: nat, offset: int)
    requires RangeAt(c, scan, offset) && scan < |c.to| && Grown(c, d, scan) && d.Scanning(scan + 1, 0) && FwdKept(c0, c)
    ensures RangeAt(d, scan + 1, offset + c.to[scan].size) && FwdKept(c0, d)
    ensures offset + c.to[scan].size <= Total(d.to) && Total(c.to) <= Total(d.to)
  {
    hide Copied.Scanning;
    TotalPrefix(d.to, scan);
    TotalSameSizes(d.to[..scan], c.to[..scan]);
    TotalMono(d.to, scan + 1);
    TotalSameSizes(d.to[..|c.to|], c.to);
    TotalMono(d.to, |c.to|);
  }

  lemma RangeEnds(c: Copied, scan: nat, offset: int)
    requires RangeAt(c, scan, offset) && offset >= Total(c.to)
    ensures scan == |c.to| && c.Scanning(|c.to|, 0)
  {
    if scan < |c.to| {
      SizePositive(c, scan);
      TotalPrefix(c.to, scan);
      TotalMono(c.to, scan + 1);
    }
  }

  lemma SizePositive(c: Copied, scan: nat)
    requires c.Scanning(scan, 0) && scan < |c.to|
    ensures c.to[scan].size > 0
  {}

  /** What a scan of the copy number `scan` may change. */
  ghost predicate Grown(c: Copied, c': Copied, scan: nat) {
    && c'.from == c.from && c'.roots == c.roots && |c'.fwd| == |c.fwd|
    && scan < |c.to| <= |c'.to|
    && (forall j | 0 <= j < |c.to| :: c'.to[j].size == c.to[j].size)
    && |c'.to[scan].slots| == |c.to[scan].slots| && c'.to[scan].kind == c.to[scan].kind
    && (forall q | 0 <= q < |c.fwd| && c.fwd[q] >= 0 :: c'.fwd[q] == c.fwd[q])
  }

  lemma GrownRefl(c: Copied, scan: nat)
    requires scan < |c.to|
    ensures Grown(c, c, scan)
  {}

  lemma GrownTrans(c: Copied, d: Copied, e: Copied, scan: nat)
    requires Grown(c, d, scan) && Grown(d, e, scan)
    ensures Grown(c, e, scan)
  {}

  lemma CopyShape(c: Copied, scan: nat, i: nat)
    requires c.Scanning(scan, i) && scan < |c.to|
    ensures c.to[scan].kind == c.Source(scan).kind && |c.to[scan].slots| == |c.Source(scan).slots|
    ensures scan < |c.origin| && c.origin[scan] < |c.from| && i <= |c.to[scan].slots|
  {}

  /** A strong pointer of a copied object leads to a reached object. */
  lemma SlotReached(c: Copied, scan: nat, i: nat)
    requires c.Scanning(scan, i) && scan < |c.to| && !c.to[scan].kind.Weak? && i < |c.to[scan].slots|
    ensures var v := c.to[scan].slots[i];
            v.From? ==> v.obj < |c.from| && Reached(c.from, c.roots, v.obj)
  {
    var v := c.to[scan].slots[i];
    SlotIsOriginal(c, scan, i);
    assert ObjOk(c.from, c.from[c.origin[scan]]);
    if v.From? {
      assert c.fwd[c.origin[scan]] == scan;
      Reachability.EdgeReached(Edges(c.from), c.roots, c.origin[scan], v.obj);
    }
  }

  /** What forwarding objects may change. */
  ghost predicate Extends(c: Copied, d: Copied) {
    && d.from == c.from && d.roots == c.roots && |d.fwd| == |c.fwd| && c.to <= d.to && c.origin <= d.origin
    && (forall q | 0 <= q < |c.fwd| && c.fwd[q] >= 0 :: d.fwd[q] == c.fwd[q])
  }

  lemma SlotStep(c: Copied, d: Copied, scan: nat, i: nat, v: Value)
    requires c.Scanning(scan, i) && d.Scanning(scan, i) && Extends(c, d)
    requires scan < |c.to| && i < |c.to[scan].slots| && !c.to[scan].kind.Weak?
    requires v == Image(c.to[scan].slots[i], d.fwd) && !v.From?
    ensures scan < |d.to| && i < |d.to[scan].slots|
    ensures d.WriteSlot(scan, i, v).Scanning(scan, i + 1) && Grown(c, d.WriteSlot(scan, i, v), scan)
  {
    SlotIsOriginal(c, scan, i);
    assert d.Source(scan) == c.Source(scan);
    SlotScanned(d, scan, i);
  }

  // ------------------------------------------------------------------ weak pointers

  /** The first `k` linked weak objects have been updated. */
  ghost predicate WeakUpdated(c: Copied, to: seq<Obj>, k: nat) {
    && c.Scanning(|c.to|, 0) && |to| == |c.to| && k <= |c.weaks|
    && (forall j | 0 <= j < |to| :: to[j] == if j in c.weaks[..k] then Copy(c.Source(j), c.fwd) else c.to[j])
  }

  lemma WeaksBegin(c: Copied)
    requires c.Scanning(|c.to|, 0)
    ensures WeakUpdated(c, c.to, 0)
  {}

  lemma WeakNext(c: Copied, to: seq<Obj>, k: nat)
    requires WeakUpdated(c, to, k) && k < |c.weaks|
    ensures var w := c.weaks[k];
            && w < |to| && |to[w].slots| == 1 && to[w].slots[0].From? && to[w].slots[0].obj < |c.fwd|
            && var q := to[w].slots[0].obj;
               WeakUpdated(c, to[w := if c.fwd[q] >= 0 then to[w].(slots := [To(c.fwd[q])])
                                      else to[w].(kind := WeakGone, slots := [])], k + 1)
  {
    var w := c.weaks[k];
    assert w in c.weaks;
    assert c.DoneAt(w) && ObjOk(c.from, c.from[c.origin[w]]);
    assert w !in c.weaks[..k];
    assert to[w] == c.Source(w);
    var q := to[w].slots[0].obj;
    assert to[w].slots[0] in to[w].slots;
    assert c.weaks[..k + 1] == c.weaks[..k] + [w];
    assert Copy(c.Source(w), c.fwd) == if c.fwd[q] >= 0 then to[w].(slots := [To(c.fwd[q])])
                                       else to[w].(kind := WeakGone, slots := []);
  }

  /** All copies are final. */
  ghost predicate Finished(c: Copied) {
    && c.Ok()
    && (forall j | 0 <= j < |c.to| :: c.to[j] == Copy(c.Source(j), c.fwd) && c.Kept(c.Source(j), |c.Source(j).slots|))
  }

  lemma WeaksEnd(c: Copied, to: seq<Obj>)
    requires WeakUpdated(c, to, |c.weaks|)
    ensures Finished(c.(to := to, weaks := []))
  {
    var d := c.(to := to, weaks := []);
    forall j | 0 <= j < |d.to|
      ensures d.to[j] == Copy(d.Source(j), d.fwd) && d.Kept(d.Source(j), |d.Source(j).slots|)
    {
      assert c.weaks[..|c.weaks|] == c.weaks;
      assert c.DoneAt(j) && ObjOk(c.from, c.from[c.origin[j]]);
      UnlinkedCopy(c.Source(j), c.fwd);
    }
  }

  lemma UnlinkedCopy(o: Obj, fwd: seq<int>)
    requires o.kind.Weak? ==> |o.slots| == 1
    ensures !Linked(o) ==> Copy(o, fwd) == Scanned(o, fwd)
  {}

  // ------------------------------------------------------------------ what a collection achieves

  lemma CopiedClosed(c: Copied, q: nat, r: nat)
    requires Finished(c) && q < |c.from| && c.fwd[q] >= 0 && Strong(c.from[q], From(r))
    ensures r < |c.fwd| && c.fwd[r] >= 0
  {
    assert c.Source(c.fwd[q]) == c.from[q];
    assert c.Kept(c.from[q], |c.from[q].slots|);
  }

  /** What was copied is exactly what is reached along strong pointers. */
  lemma ReachedIsCopied(c: Copied, p: nat)
    requires Finished(c) && p < |c.from| && RootsCopied(c)
    ensures c.fwd[p] >= 0 <==> Reached(c.from, c.roots, p)
  {
    hide Finished;
    CopiedReached(c, p);
    if Reached(c.from, c.roots, p) {
      var live := set q: nat | q < |c.fwd| && c.fwd[q] >= 0;
      forall q, r | q in live && q < |c.from| && Strong(c.from[q], From(r)) ensures r in live {
        CopiedClosed(c, q, r);
      }
      Reachability.ClosedHolds(Edges(c.from), c.roots, p, live);
    }
  }

  lemma CopiedReached(c: Copied, p: nat)
    requires Finished(c) && p < |c.from|
    ensures |c.fwd| == |c.from| && (c.fwd[p] >= 0 ==> Reached(c.from, c.roots, p))
  {}

  /** A collected heap has no pointer left into the space that was emptied. */
  lemma NoPointerBack(c: Copied, j: nat, v: Value)
    requires Finished(c) && j < |c.to| && v in c.to[j].slots
    ensures !v.From?
    ensures v.To? ==> v.obj < |c.to|
  {}

  /** A valid weak pointer survives exactly when its target is reached along strong pointers. */
  lemma WeakSurvives(c: Copied, j: nat)
    requires Finished(c) && j < |c.to| && Linked(c.Source(j))
    requires RootsCopied(c)
    ensures var q := c.Source(j).slots[0].obj;
            && q < |c.from|
            && (c.to[j].kind.Weak? <==> Reached(c.from, c.roots, q))
            && (if Reached(c.from, c.roots, q) then c.to[j].slots == [To(c.fwd[q])] else c.to[j].kind.WeakGone?)
  {
    assert ObjOk(c.from, c.from[c.origin[j]]);
    var q := c.Source(j).slots[0].obj;
    assert c.Source(j).slots[0] in c.Source(j).slots;
    ReachedIsCopied(c, q);
  }

  /** Copies keep kind, size, data and, pointer by pointer, the target: `fwd` is an isomorphism. */
  lemma CopyIsomorphic(c: Copied, p: nat, i: nat)
    requires Finished(c) && p < |c.from| && c.fwd[p] >= 0 && !c.from[p].kind.Weak? && i < |c.from[p].slots|
    ensures c.fwd[p] < |c.to| && i < |c.to[c.fwd[p]].slots| == |c.from[p].slots|
    ensures c.to[c.fwd[p]].(slots := []) == c.from[p].(slots := [])
    ensures var v := c.from[p].slots[i]; var v' := c.to[c.fwd[p]].slots[i];
            if v.From? then v.obj < |c.fwd| && c.fwd[v.obj] >= 0 && v' == To(c.fwd[v.obj]) else v' == v
  {}

  /** majorCheneyCopyGC (cheney-copy.c:79-88): globals, then the copies, then the weak pointers. */
  method MajorCheneyCopyGC(from: seq<Obj>, globals: array<Value>, toStart: nat, toLimit: nat) returns (c: Collector)
    requires SpaceOk(from) && toStart + Total(from) <= toLimit
    requires forall i | 0 <= i < globals.Length && globals[i].From? :: globals[i].obj < |from|
    modifies globals
    ensures fresh(c) && fresh(c.fwd) && c.from == from
    ensures c.roots == GlobalRoots(old(globals[..]))
    ensures Finished(c.Now()) && RootsCopied(c.Now())
    ensures AllMoved(old(globals[..]), globals[..], c.fwd[..])
    ensures c.back == toStart + Total(c.to) <= toLimit
  {
    hide Copied.Scanning, Collector.Accounted, Finished, AllMoved, FwdKept, RootsCopied, GlobalsOk, GlobalRoots,
      SpaceOk;
    ghost var rs := GlobalRoots(globals[..]);
    GlobalsReached(from, globals[..]);
    c := new Collector(from, toStart, toLimit, rs);
    ghost var g := globals[..];
    c.ForwardGlobals(globals);
    ghost var d := c.Now();
    c.ForeachObjptrInRange();
    MovedAll(g, globals[..], d, c.Now());
    c.UpdateWeaksForCheneyCopy();
    RootsForwarded(g, globals[..], c.Now());
    c.InRoom();
  }

  ghost function GlobalRoots(globals: seq<Value>): set<nat> {
    set i | 0 <= i < |globals| && globals[i].From? :: globals[i].obj
  }

  ghost predicate AllMoved(g: seq<Value>, g': seq<Value>, fwd: seq<int>) {
    |g| == |g'| && forall i | 0 <= i < |g| :: Moved(g[i], g'[i], fwd)
  }

  ghost predicate GlobalsOk(from: seq<Obj>, roots: set<nat>, globals: seq<Value>) {
    forall i | 0 <= i < |globals| && globals[i].From? ::
      globals[i].obj < |from| && Reached(from, roots, globals[i].obj)
  }

  lemma GlobalsReached(from: seq<Obj>, globals: seq<Value>)
    requires forall i | 0 <= i < |globals| && globals[i].From? :: globals[i].obj < |from|
    ensures GlobalsOk(from, GlobalRoots(globals), globals)
  {
    forall i | 0 <= i < |globals| && globals[i].From?
      ensures Reached(from, GlobalRoots(globals), globals[i].obj)
    {
      Reachability.RootReached(Edges(from), GlobalRoots(globals), globals[i].obj);
    }
  }

  lemma MovedAll(g: seq<Value>, g': seq<Value>, c: Copied, d: Copied)
    requires AllMoved(g, g', c.fwd) && FwdKept(c, d)
    ensures AllMoved(g, g', d.fwd)
  {}

  lemma RootsForwarded(g: seq<Value>, g': seq<Value>, c: Copied)
    requires AllMoved(g, g', c.fwd) && GlobalRoots(g) == c.roots
    ensures RootsCopied(c)
  {}

  ghost predicate RootsCopied(c: Copied) {
    forall r | r in c.roots :: r < |c.fwd| && c.fwd[r] >= 0
  }
}
