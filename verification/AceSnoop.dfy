/** What one cache does with one snoop: the eight handlers of the cache. */
module AceSnoop {
  import opened AceTypes

  datatype SnoopOp =
    | ReadOnce | ReadShared | ReadClean | ReadNotSharedDirty | ReadUnique
    | CleanInvalid | CleanShared | MakeInvalid

  /** The attribute bits a handler leaves in the snoop, and the line when data is transferred. */
  datatype SnoopResponse = SnoopResponse(shared: bool, dirty: bool, wasUnique: bool, transfer: bool)

  predicate IsReadSnoop(op: SnoopOp) {
    op.ReadOnce? || op.ReadShared? || op.ReadClean? || op.ReadNotSharedDirty? || op.ReadUnique?
  }

  predicate IsInvalidating(op: SnoopOp) {
    op.ReadUnique? || op.CleanInvalid? || op.MakeInvalid?
  }

  /** Whether a handler hands a dirty line's responsibility over to the interconnect. */
  predicate HandsOverDirty(op: SnoopOp) {
    op.ReadShared? || op.ReadUnique? || op.CleanInvalid? || op.CleanShared?
  }

  function Response(op: SnoopOp, l: Line): SnoopResponse {
    SnoopResponse(
      op.ReadOnce? || op.ReadShared? || op.ReadClean? || op.ReadNotSharedDirty? || op.CleanShared?,
      l.dirty && HandsOverDirty(op),
      !l.shared && !op.ReadOnce? && !op.MakeInvalid?,
      IsReadSnoop(op) || (l.dirty && HandsOverDirty(op)))
  }

  function Snooped(op: SnoopOp, l: Line): Line {
    if IsInvalidating(op) then l.(valid := false)
    else l.(shared := true, dirty := l.dirty && !HandsOverDirty(op))
  }

  predicate InCache(lines: seq<Line>, k: Key)
    requires |lines| == NUM_LINES
  {
    lines[Index(k)].valid && lines[Index(k)].key == k
  }

  function SnoopLines(op: SnoopOp, lines: seq<Line>, k: Key): (r: seq<Line>)
    requires |lines| == NUM_LINES
    ensures |r| == NUM_LINES
  {
    if InCache(lines, k) then lines[Index(k) := Snooped(op, lines[Index(k)])] else lines
  }
}
