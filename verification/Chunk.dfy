/** Chunk headers (runtime/gc/um_constants.h:18-41): the four flag bits of the header word. */
module Chunk {

  const IN_USE: bv32 := 0x80000000
  const MARK_MASK: bv32 := 0x01000000
  const GREY_MASK: bv32 := 0x02000000
  const RED_MASK: bv32 := 0x04000000
  const UNMARK_MASK: bv32 := 0xF0FFFFFF

  datatype Header = Header(inUse: bool, mark: bool, grey: bool, red: bool)

  const CLEAN := Header(false, false, false, false)

  /** What kind of object a chunk holds (the chunkType field). */
  datatype ChunkType = Empty | NormalChunk | ArrayChunk | StackChunk | WeakChunk

  datatype Mode = Mark | Grey

  /** What a slot of an object holds; objects outside the chunked heap have no colour. */
  datatype Value = NonPointer | OffHeap | Ref(obj: nat)

  /** The flags in a header word. */
  function Flags(w: bv32): Header {
    Header(w & IN_USE != 0, w & MARK_MASK != 0, w & GREY_MASK != 0, w & RED_MASK != 0)
  }

  /** What markChunk does to one header (ummark.c:267-277, 528-537). */
  function Paint(mode: Mode, h: Header): Header {
    match mode
    case Mark => h.(red := false, mark := true)
    case Grey => if !h.grey && !h.mark then h.(red := false, grey := true) else h
  }

  /** The header of a fresh chunk: grey if its thread has synchronised and red if not; chunks of arrays
    are not yet in use (umheap.c:53-57). */
  function NewHeader(t: ChunkType, rtSync: bool): Header { Header(!t.ArrayChunk?, false, rtSync, !rtSync) }

  /** The sweep looks at chunks of normal objects and of arrays that are in use. */
  predicate Looked(t: ChunkType, h: Header) {
    (t.NormalChunk? || t.ArrayChunk?) && h.inUse
  }

  /** One flag is dropped, MARK first; the header of a freed chunk stays as it was. */
  function Swept(t: ChunkType, h: Header): Header {
    if !Looked(t, h) || h.red then h
    else if h.mark then h.(mark := false)
    else if h.grey then h.(grey := false)
    else h
  }

  /** A chunk of an object that a cycle has shaded and then marked. */
  function Black(h: Header): Header {
    h.(mark := true, grey := true, red := false)
  }

  /** The masking of the header word does to the flags what `Paint` says. */
  lemma PaintWord(w: bv32, mode: Mode)
    ensures Flags(if mode.Mark? then (w & !RED_MASK) | MARK_MASK
                  else if w & GREY_MASK == 0 && w & MARK_MASK == 0 then (w & !RED_MASK) | GREY_MASK
                  else w) == Paint(mode, Flags(w))
  {}

  /** The sweep clears one flag and leaves the others (garbage-collection.c:579, 591). */
  lemma ClearMark(w: bv32)
    ensures Flags(w & !MARK_MASK) == Flags(w).(mark := false)
  {}

  lemma ClearGrey(w: bv32)
    ensures Flags(w & !GREY_MASK) == Flags(w).(grey := false)
  {}

  /** The assertion of the sweep on an unmarked chunk (ISUNMARKED, line 595) checks nothing: the
    macro negates bit by bit, so it is true of every header word. */
  lemma IsUnmarkedAlways(w: bv32)
    ensures !(w & !UNMARK_MASK) != 0
  {}

  lemma PaintFacts(h: Header)
    ensures forall m :: Paint(m, Paint(m, h)) == Paint(m, h) && Paint(m, h).inUse == h.inUse
    ensures Paint(Mark, Paint(Grey, h)) == if h.mark then h.(red := false) else Black(h)
    ensures Paint(Grey, Black(h)) == Black(h) == Black(Paint(Grey, h)) == Black(Black(h))
  {}
}
