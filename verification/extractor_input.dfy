/** The byte source an extractor reads from. The implementation behind
    ExoPlayer's `ExtractorInput` is not part of this model; it is reduced to
    the data, a read cursor and a peek cursor that never lags behind it. */
module ExtractorInput {
  import opened Wrappers

  newtype uint8 = x: int | 0 <= x < 0x100

  datatype Input = Input(data: seq<uint8>, position: nat, peekPosition: nat) {
    predicate Valid() {
      position <= peekPosition <= |data|
    }

    /** Bytes still available to a peek. */
    function PeekRemaining(): int {
      |data| - peekPosition
    }
  }

  /** A value decoded from the input together with the input after decoding. */
  datatype Parsed<+T> = Parsed(value: T, rest: Input)

  /** An input positioned at the start of `data`. */
  function Fresh(data: seq<uint8>): (inp: Input)
    ensures inp.Valid() && inp.position == inp.peekPosition == 0
  {
    Input(data, 0, 0)
  }

  /** `peekFully(target, 0, n)`: copies the next `n` bytes at the peek
      cursor and advances only the peek cursor; fails at end of input. */
  function PeekFully(inp: Input, n: nat): (r: Result<Parsed<seq<uint8>>>)
    requires inp.Valid()
    ensures r.Success? <==> n <= inp.PeekRemaining()
    ensures r.Success? ==>
      && |r.value.value| == n
      && r.value.value == inp.data[inp.peekPosition .. inp.peekPosition + n]
      && r.value.rest == inp.(peekPosition := inp.peekPosition + n)
      && r.value.rest.Valid()
    ensures r.Failure? ==> r.error == EndOfInput
  {
    if n <= inp.PeekRemaining() then
      Success(Parsed(inp.data[inp.peekPosition .. inp.peekPosition + n],
                     inp.(peekPosition := inp.peekPosition + n)))
    else
      Failure(EndOfInput)
  }

  /** `advancePeekPosition(n)`: moves the peek cursor without copying.
      A negative length is treated as an illegal argument. */
  function AdvancePeekPosition(inp: Input, n: int): (r: Result<Input>)
    requires inp.Valid()
    ensures r.Success? <==> 0 <= n <= inp.PeekRemaining()
    ensures r.Success? ==>
      && r.value == inp.(peekPosition := inp.peekPosition + n)
      && r.value.Valid()
  {
    if n < 0 then Failure(IllegalArgument)
    else if n > inp.PeekRemaining() then Failure(EndOfInput)
    else Success(inp.(peekPosition := inp.peekPosition + n))
  }

  /** `skip(n)`: advances the read cursor by up to `n` bytes (fewer at the
      end of the data). Reading or skipping resets the peek cursor, so it
      lands on the new read cursor and every byte peeked beyond it is given
      up. The number of bytes skipped is what `skip` returns. */
  function Skip(inp: Input, n: nat): (r: Input)
    requires inp.Valid()
    ensures r.Valid()
    ensures r.data == inp.data
    ensures inp.position + n <= |inp.data| ==> r.position == inp.position + n
    ensures inp.position + n > |inp.data| ==> r.position == |inp.data|
    ensures r.peekPosition == r.position
  {
    var moved := if n <= |inp.data| - inp.position then n else |inp.data| - inp.position;
    Input(inp.data, inp.position + moved, inp.position + moved)
  }

  /** `resetPeekPosition()`: the peek cursor returns to the read cursor. */
  function ResetPeekPosition(inp: Input): (r: Input)
    requires inp.Valid()
    ensures r.Valid() && r.peekPosition == r.position == inp.position && r.data == inp.data
  {
    inp.(peekPosition := inp.position)
  }
}
