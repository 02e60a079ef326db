/** Whole runs of a thread on its chunked stack (include/c-chunk.h:330-409,
  runtime/gc/garbage-collection.c:169-237) behave like runs on a plain list of frames. */
module StackRuns {
  import opened Stacklet

  datatype Op =
    | Call(bytes: nat, argument: Content)  // fill the next frame and push it
    | Pop(bytes: nat)                      // STACKLET_Push with a negative number
    | Update(frame: Content)               // write to the current frame
    | SetHandler(e: nat)                   // ExnStack becomes frame number `e`
    | Raise
    | Resize                               // maybe_growstack, not forced, with the default ratios

  /** The plain stack: frames from the oldest on, what StackDepth says, and the frame that ExnStack leads to while
    that is live. */
  datatype Plain = Plain(frames: seq<Content>, depth: nat, exn: int)

  predicate Enabled(s: Plain, op: Op) {
    s.frames != [] &&
    match op
    case Call(bytes, _) => bytes > 0
    case Pop(bytes) => bytes > 0 && |s.frames| > 1 && s.depth > 0
    case Update(_) => true
    case SetHandler(e) => e < |s.frames|
    case Raise => 0 <= s.exn < |s.frames| - 1
    case Resize => true
  }

  /** Frames from number `n` on are gone, and so is a handler in one of them. */
  function Dropped(s: Plain, n: nat): Plain
    requires n <= |s.frames|
  {
    s.(frames := s.frames[..n], exn := if s.exn < n then s.exn else -1)
  }

  function Next(s: Plain, op: Op): Plain
    requires Enabled(s, op)
  {
    var top := |s.frames| - 1;
    match op
    case Call(bytes, argument) =>
      s.(frames := s.frames[top := s.frames[top].(ra := bytes)] + [argument], depth := s.depth + 1)
    case Pop(_) => Dropped(s, top).(depth := s.depth - 1)
    case Update(x) => s.(frames := s.frames[top := x])
    case SetHandler(e) => s.(exn := e)
    case Raise => if s.exn == 0 || s.frames[s.exn].handler == 0 then s else Dropped(s, s.exn + 2)
    case Resize => s
  }

  ghost predicate AllEnabled(s: Plain, ops: seq<Op>)
    decreases |ops|
  {
    ops == [] || (Enabled(s, ops[0]) && AllEnabled(Next(s, ops[0]), ops[1..]))
  }

  ghost function After(s: Plain, ops: seq<Op>): Plain
    requires AllEnabled(s, ops)
    decreases |ops|
  {
    if ops == [] then s else After(Next(s, ops[0]), ops[1..])
  }

  /** A call and the matching pop leave frames, depth and exception frame as they were, but for the return address. */
  lemma CallAndPop(s: Plain, bytes: nat, argument: Content, n: nat)
    requires Enabled(s, Call(bytes, argument)) && n > 0 && s.exn < |s.frames|
    ensures Enabled(Next(s, Call(bytes, argument)), Pop(n))
    ensures var top := |s.frames| - 1;
            Next(Next(s, Call(bytes, argument)), Pop(n)) == s.(frames := s.frames[top := s.frames[top].(ra := bytes)])
  {}

  /** An exception drops the frames above the one after the handler's and keeps the exception frame. */
  lemma RaiseUnwinds(s: Plain)
    requires Enabled(s, Raise) && s.exn > 0 && s.frames[s.exn].handler != 0
    ensures Next(s, Raise) == s.(frames := s.frames[..s.exn + 2])
  {}

  /** The thread's chunks hold the frames of the plain stack. */
  ghost predicate Matches(t: Thread, s: Plain)
    reads t, t.m
  {
    && t.Valid() && t.Live() == s.frames && t.stackDepth == s.depth
    && s.exn < |s.frames| && (s.exn >= 0 ==> t.exnStack == t.chain[s.exn])
  }

  method Step(t: Thread, op: Op, r: Ratios, ghost s: Plain)
    requires Matches(t, s) && Enabled(s, op) && r.growThreshold < 1.0 && r.grow >= 0.0
    modifies t, t.m
    ensures Matches(t, Next(s, op))
  {
    match op
    case Call(bytes, argument) => CallStep(t, bytes, argument, r, s);
    case Pop(bytes) => PopStep(t, bytes, r, s);
    case Update(x) => t.WriteFrame(false, x);
    case SetHandler(e) => HandlerStep(t, e, s);
    case Raise => RaiseStep(t, s);
    case Resize => ResizeStep(t, s);
  }

  method CallStep(t: Thread, bytes: nat, argument: Content, r: Ratios, ghost s: Plain)
    requires Matches(t, s) && bytes > 0 && r.growThreshold < 1.0 && r.grow >= 0.0
    modifies t, t.m
    ensures s.frames != [] && Matches(t, Next(s, Call(bytes, argument)))
  {
    t.WriteFrame(true, argument);
    t.Push(bytes, r);
  }

  method PopStep(t: Thread, bytes: nat, r: Ratios, ghost s: Plain)
    requires Matches(t, s) && Enabled(s, Pop(bytes)) && r.growThreshold < 1.0 && r.grow >= 0.0
    modifies t, t.m
    ensures Matches(t, Next(s, Pop(bytes)))
  {
    var pop: int := bytes;
    t.Push(-pop, r);
  }

  /** The frame number is found by walking along the chain, as the program does with its frame pointers. */
  method HandlerStep(t: Thread, e: nat, ghost s: Plain)
    requires Matches(t, s) && e < |s.frames|
    modifies t`exnStack
    ensures Matches(t, s.(exn := e))
  {
    var c := t.firstFrame;
    Ends(t.m.chunks, t.chain, 0);
    for i := 0 to e
      invariant c == t.chain[i] && c < |t.m.chunks|
    {
      Ends(t.m.chunks, t.chain, i);
      Ends(t.m.chunks, t.chain, i + 1);
      c := t.m.chunks[c].next;
    }
    t.exnStack := c;
  }

  method RaiseStep(t: Thread, ghost s: Plain)
    requires Matches(t, s) && Enabled(s, Raise)
    modifies t
    ensures Matches(t, Next(s, Raise))
  {
    var handler := t.Raise(s.exn);
  }

  method ResizeStep(t: Thread, ghost s: Plain)
    requires Matches(t, s)
    modifies t, t.m
    ensures Matches(t, s)
  {
    if Shrinks(false, DEFAULTS, t.stackDepth, t.stackSizeInChunks) {
      DefaultsSafe(t.index, t.stackDepth, t.stackSizeInChunks);
    }
    var ok := t.MaybeGrowStack(false, DEFAULTS);
  }

  /** Any run of calls, returns, raises, writes and resizings does to the frames what it does to a plain list. */
  method Run(t: Thread, ops: seq<Op>, r: Ratios, ghost s: Plain)
    requires Matches(t, s) && AllEnabled(s, ops) && r.growThreshold < 1.0 && r.grow >= 0.0
    modifies t, t.m
    ensures Matches(t, After(s, ops))
  {
    ghost var now := s;
    for i := 0 to |ops|
      invariant Matches(t, now) && AllEnabled(now, ops[i..]) && After(now, ops[i..]) == After(s, ops)
    {
      assert ops[i..][0] == ops[i] && ops[i..][1..] == ops[i + 1..];
      Step(t, ops[i], r, now);
      now := Next(now, ops[i]);
    }
  }
}
