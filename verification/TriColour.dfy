/** The strong tri-colour invariant while marking runs (runtime/gc/um.c:147-206, include/c-chunk.h:97-107,
  ummark.c:489-498, umheap.c:53-57).

  Mutators and the marker take turns; a step of the marker is the scan of one object. A header stands
  for all chunks of its object, which markChunk paints alike. */
module TriColour {
  import opened Chunk
  import opened Wrappers

  datatype State = State(headers: seq<Header>, fields: seq<seq<Value>>, rtSync: seq<bool>) {
    ghost predicate Ok() {
      && |fields| == |headers|
      && forall o | 0 <= o < |fields| :: ValuesOk(fields[o])
    }

    ghost predicate ValuesOk(vs: seq<Value>) {
      forall i | 0 <= i < |vs| :: ValueOk(vs[i])
    }

    predicate ValueOk(v: Value) { v.Ref? ==> v.obj < |headers| }

    /** A reference that is not white. */
    predicate Coloured(v: Value) {
      v.Ref? ==> v.obj < |headers| && (headers[v.obj].mark || headers[v.obj].grey)
    }

    /** No marked object holds a white reference. */
    ghost predicate Strong() {
      |fields| == |headers| &&
      forall o, i | 0 <= o < |headers| && headers[o].mark && 0 <= i < |fields[o]| :: Coloured(fields[o][i])
    }

    /** The headers after umShadeObject on each value of `vs`. */
    function Shaded(vs: seq<Value>): (r: seq<Header>)
      ensures |r| == |headers|
      ensures forall o | 0 <= o < |headers| :: r[o] == if Ref(o) in vs then Paint(Grey, headers[o]) else headers[o]
    {
      seq(|headers|, o requires 0 <= o < |headers| => if Ref(o) in vs then Paint(Grey, headers[o]) else headers[o])
    }
  }

  datatype Step =
    | Scan(obj: nat)
    | Alloc(thread: nat, size: nat)
    | Write(thread: nat, dst: Value, field: nat, src: Value)
    | WriteStack(thread: nat, src: Value)
    | Sync(thread: nat)

  ghost predicate Enabled(s: State, step: Step) {
    match step
    case Scan(p) => p < |s.headers|
    case Alloc(t, _) => t < |s.rtSync|
    case Write(t, dst, i, src) =>
      t < |s.rtSync| && s.ValueOk(src) && s.ValueOk(dst) && (dst.Ref? ==>
          dst.obj < |s.fields| && i < |s.fields[dst.obj]|)
    case WriteStack(t, src) => t < |s.rtSync| && s.ValueOk(src)
    case Sync(t) => t < |s.rtSync|
  }

  /** The write is safe: barriered, or to an object that is not marked, or of a reference that is not
    white. */
  ghost predicate SafeWrite(s: State, step: Step) {
    step.Write? && Enabled(s, step) ==>
      s.rtSync[step.thread] || !step.dst.Ref? || !s.headers[step.dst.obj].mark || s.Coloured(step.src)
  }

  /** The shared state that mutators and marker work on. */
  class Shared {
    var headers: seq<Header>
    var fields: seq<seq<Value>>
    var rtSync: seq<bool>

    ghost function Now(): State
      reads this
    {
      State(headers, fields, rtSync)
    }

    /** markChunk in GREY_MODE on the object that a value leads to. */
    method Shade(v: Value)
      requires Now().ValueOk(v)
      modifies `headers
      ensures headers == old(Now()).Shaded([v])
    {
      if v.Ref? {
        headers := headers[v.obj := Paint(Grey, headers[v.obj])];
      }
    }

    /** writeBarrier (um.c:147-206); `dst` is None for a write to a stack slot. */
    method WriteBarrier(dst: Option<Value>, src: Value)
      requires Now().ValueOk(src) && (dst.Some? ==> Now().ValueOk(dst.value))
      modifies `headers
      ensures headers == if dst.None? || (dst.value.Ref? && old(headers)[dst.value.obj].mark)
                         then old(Now()).Shaded([src]) else old(headers)
    {
      if dst.None? {
        if src.Ref? && !headers[src.obj].mark { Shade(src); }
        return;
      }
      var dstMarked := dst.value.Ref? && headers[dst.value.obj].mark;
      if dstMarked {
        if src.Ref? && !headers[src.obj].mark { Shade(src); }
      }
    }

    /** The WB macro (c-chunk.h:97-107): the field written holds `src` and no other slot changes. A synchronised
      thread that writes to a marked object shades `src`, if that is white; nothing else is shaded. */
    method WB(thread: nat, dst: Value, field: nat, src: Value)
      requires Enabled(Now(), Write(thread, dst, field, src))
      modifies `headers, `fields
      ensures Now() == Next(old(Now()), Write(thread, dst, field, src))
      ensures |fields| == |old(fields)| && forall o | 0 <= o < |fields| :: |fields[o]| == |old(fields)[o]|
      ensures dst.Ref? ==> fields[dst.obj][field] == src
      ensures forall o, i | 0 <= o < |fields| && 0 <= i < |fields[o]| && !(dst.Ref? && o == dst.obj && i == field) ::
                fields[o][i] == old(fields)[o][i]
      ensures |headers| == |old(headers)| && forall o | 0 <= o < |headers| ::
                var h := old(headers)[o];
                headers[o] == if rtSync[thread] && dst.Ref? && old(headers)[dst.obj].mark && src == Ref(o) &&
                                 !h.mark && !h.grey
                              then h.(grey := true, red := false) else h
    {
      if rtSync[thread] { WriteBarrier(Some(dst), src); }
      if dst.Ref? { fields := fields[dst.obj := fields[dst.obj][field := src]]; }
    }

    /** A write to a stack slot: a synchronised thread shades `src`, if that is white. */
    method WBStack(thread: nat, src: Value)
      requires Enabled(Now(), WriteStack(thread, src))
      modifies `headers
      ensures Now() == Next(old(Now()), WriteStack(thread, src))
      ensures |headers| == |old(headers)| && forall o | 0 <= o < |headers| ::
                var h := old(headers)[o];
                headers[o] == if rtSync[thread] && src == Ref(o) && !h.mark && !h.grey
                              then h.(grey := true, red := false) else h
    {
      if rtSync[thread] { WriteBarrier(None, src); }
    }

    /** Shade the object, shade its children, mark it (ummark.c:489-498). An object that is marked already is left
      alone; else it is marked and shaded and all its children are coloured, and nothing else changes. */
    method ScanObject(p: nat)
      requires Now().Ok() && p < |headers|
      modifies `headers
      ensures Now() == Next(old(Now()), Scan(p))
      ensures old(headers)[p].mark ==> headers == old(headers)
      ensures !old(headers)[p].mark ==>
                && |headers| == |old(headers)|
                && headers[p] == old(headers)[p].(mark := true, grey := true, red := false)
                && (forall v | v in fields[p] && v.Ref? && v.obj != p ::
                      && (headers[v.obj].grey || headers[v.obj].mark)
                      && var h := old(headers)[v.obj];
                         headers[v.obj] == if h.mark || h.grey then h else h.(grey := true, red := false))
                && forall o | 0 <= o < |headers| && o != p && Ref(o) !in fields[p] :: headers[o] == old(headers)[o]
    {
      if headers[p].mark { return; }
      ghost var s := Now();
      Shade(Ref(p));
      var vs := fields[p];
      assert s.ValuesOk(vs);
      assert [Ref(p)] + vs[..0] == [Ref(p)];
      for i := 0 to |vs|
        invariant headers == s.Shaded([Ref(p)] + vs[..i])
      {
        assert [Ref(p)] + vs[..i + 1] == [Ref(p)] + vs[..i] + [vs[i]];
        ShadedPush(s, [Ref(p)] + vs[..i], vs[i]);
        Shade(vs[i]);
      }
      assert vs[..|vs|] == vs;
      headers := headers[p := Paint(Mark, headers[p])];
    }

    /** The chunk of a new object (umheap.c:53-57): not marked and either grey or red, so that the strong
      invariant survives. */
    method Allocate(thread: nat, size: nat) returns (o: nat)
      requires thread < |rtSync| && Now().Ok()
      modifies `headers, `fields
      ensures Now() == Next(old(Now()), Alloc(thread, size))
      ensures o == old(|headers|) < |headers| && headers[..o] == old(headers) && fields[..o] == old(fields)
      ensures headers[o].inUse && !headers[o].mark && (headers[o].grey <==> rtSync[thread])
      ensures headers[o].red <==> !headers[o].grey
      ensures |fields[o]| == size && forall v | v in fields[o] :: v.NonPointer?
      ensures Now().Ok() && (old(Now()).Strong() ==> Now().Strong())
    {
      o := |headers|;
      ghost var s := Now();
      if s.Strong() { AllocStrong(s, thread, size); }
      headers := headers + [NewHeader(NormalChunk, rtSync[thread])];
      fields := fields + [seq(size, _ => NonPointer)];
    }
  }

  lemma ShadedPush(s: State, vs: seq<Value>, v: Value)
    ensures s.(headers := s.Shaded(vs)).Shaded([v]) == s.Shaded(vs + [v])
  {}

  function Next(s: State, step: Step): State
    requires Enabled(s, step)
  {
    match step
    case Scan(p) =>
      if s.headers[p].mark || p >= |s.fields| then s
      else
        var hs := s.Shaded([Ref(p)] + s.fields[p]);
        s.(headers := hs[p := Paint(Mark, hs[p])])
    case Alloc(t, size) =>
      s.(headers := s.headers + [NewHeader(NormalChunk, s.rtSync[t])],
         fields := s.fields + [seq(size, _ => NonPointer)])
    case Write(t, dst, i, src) =>
      s.(headers := if s.rtSync[t] && dst.Ref? && s.headers[dst.obj].mark then s.Shaded([src]) else s.headers,
         fields := if dst.Ref? then s.fields[dst.obj := s.fields[dst.obj][i := src]] else s.fields)
    case WriteStack(t, src) => s.(headers := if s.rtSync[t] then s.Shaded([src]) else s.headers)
    case Sync(t) => s.(rtSync := s.rtSync[t := true])
  }

  // ------------------------------------------------------------------ the invariant

  lemma StepOk(s: State, step: Step)
    requires s.Ok() && Enabled(s, step)
    ensures Next(s, step).Ok() && |s.headers| <= |Next(s, step).headers|
  {}

  /** Shading never lightens a reference, and darkens what it is applied to. */
  lemma ShadedColours(s: State, vs: seq<Value>, v: Value)
    requires s.ValueOk(v) && (s.Coloured(v) || v in vs)
    ensures s.(headers := s.Shaded(vs)).Coloured(v)
  {}

  lemma ScanStrong(s: State, p: nat)
    requires s.Ok() && s.Strong() && p < |s.headers|
    ensures Next(s, Scan(p)).Strong()
  {}

  lemma AllocStrong(s: State, t: nat, size: nat)
    requires s.Ok() && s.Strong() && t < |s.rtSync|
    ensures Next(s, Alloc(t, size)).Strong()
  {}

  lemma ShadeStrong(s: State, vs: seq<Value>)
    requires s.Ok() && s.Strong()
    ensures s.(headers := s.Shaded(vs)).Ok() && s.(headers := s.Shaded(vs)).Strong()
  {}

  /** A plain write keeps the invariant exactly when the object is not marked or the value not white. */
  lemma PlainWriteStrong(s: State, o: nat, i: nat, v: Value)
    requires s.Ok() && s.Strong() && s.ValueOk(v) && o < |s.fields| && i < |s.fields[o]|
    ensures s.(fields := s.fields[o := s.fields[o][i := v]]).Strong() <==> !s.headers[o].mark || s.Coloured(v)
  {
    var s' := s.(fields := s.fields[o := s.fields[o][i := v]]);
    assert s'.fields[o][i] == v;
    if !s.headers[o].mark || s.Coloured(v) {
      forall p, j | 0 <= p < |s'.headers| && s'.headers[p].mark && 0 <= j < |s'.fields[p]|
        ensures s'.Coloured(s'.fields[p][j])
      {
        if p != o || j != i { assert s.Coloured(s.fields[p][j]); }
      }
    } else {
      assert !s'.Coloured(s'.fields[o][i]);
    }
  }

  /** Every step of marker and mutators keeps the strong invariant, but for a write by a thread that
    has not synchronised: that keeps it exactly when the object is not marked or the reference is not
    white. */
  lemma StepStrong(s: State, step: Step)
    requires s.Ok() && s.Strong() && Enabled(s, step)
    ensures Next(s, step).Strong() <==> SafeWrite(s, step)
  {
    match step
    case Scan(p) => ScanStrong(s, p);
    case Alloc(t, size) => AllocStrong(s, t, size);
    case Write(t, dst, i, src) =>
      if dst.Ref? {
        if s.rtSync[t] && s.headers[dst.obj].mark {
          ShadeStrong(s, [src]);
          ShadedColours(s, [src], src);
          PlainWriteStrong(s.(headers := s.Shaded([src])), dst.obj, i, src);
        } else {
          PlainWriteStrong(s, dst.obj, i, src);
        }
      }
    case WriteStack(t, src) => ShadeStrong(s, [src]);
    case Sync(t) =>
  }

  ghost predicate Run(run: seq<State>, steps: seq<Step>) {
    && |run| == |steps| + 1
    && forall i | 0 <= i < |steps| :: Enabled(run[i], steps[i]) && run[i + 1] == Next(run[i], steps[i])
  }

  /** Once every thread has marked its stack and synchronised, all writes are barriered, so no
    interleaving of mutators and marker breaks the invariant. */
  lemma {:induction false} AllSyncedStrong(run: seq<State>, steps: seq<Step>, n: nat)
    requires Run(run, steps) && n < |run| && run[0].Ok() && run[0].Strong()
    requires forall t | 0 <= t < |run[0].rtSync| :: run[0].rtSync[t]
    ensures run[n].Ok() && run[n].Strong()
    ensures |run[n].rtSync| == |run[0].rtSync| && forall t | 0 <= t < |run[n].rtSync| :: run[n].rtSync[t]
  {
    if n > 0 {
      AllSyncedStrong(run, steps, n - 1);
      StepOk(run[n - 1], steps[n - 1]);
      StepStrong(run[n - 1], steps[n - 1]);
    }
  }
}
