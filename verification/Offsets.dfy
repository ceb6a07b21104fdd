/** Bounds checks every parser advances its offset through. */
module Offsets {
  import opened Prelude

  function CheckOffset(offset: usize, bytes: Slice): Result<()> {
    if |bytes| <= offset then Err(Corrupted) else Ok(())
  }

  /**
   `offset + lookahead - 1` must be an index of `bytes`, both steps checked. A zero
   lookahead asks for the byte before `offset`, so it is refused at offset 0.
   */
  function CheckOffsetLookahead(offset: usize, bytes: Slice, lookahead: usize): (r: Result<()>)
    ensures r.Ok? <==> 1 <= offset + lookahead <= |bytes|
  {
    match CheckedAdd(offset, lookahead)
    case None => Err(Increment)
    case Some(sum) =>
      if sum == 0 then Err(Increment)
      else if |bytes| <= sum - 1 then Err(Corrupted) else Ok(())
  }

  function InitOffset(bytes: Slice, value: usize): Result<usize> {
    var _ :- CheckOffset(value, bytes);
    Ok(value)
  }

  /** The bound is compared with an unchecked sum, before the checked one. */
  function IncrementOffset(bytes: Slice, offset: usize, incr: usize): (r: Result<usize>)
    requires offset + incr <= USIZE_MAX
    ensures r.Ok? <==> offset + incr < |bytes|
    ensures r.Ok? ==> r.value == offset + incr
    ensures r.Err? ==> r.error == Corrupted
  {
    var _ :- CheckOffset(Add(offset, incr), bytes);
    match CheckedAdd(offset, incr)
    case None => Err(OffsetOverflow)
    case Some(sum) => Ok(sum)
  }

  function MapErr<T>(r: Result<T>, error: Error): Result<T> {
    if r.Err? then Err(error) else r
  }

  function OkOr<T>(o: Option<T>, error: Error): Result<T> {
    match o
    case None => Err(error)
    case Some(v) => Ok(v)
  }
}
