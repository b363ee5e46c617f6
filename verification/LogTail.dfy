/** The log tailer (pkg/logs/tail.go). Cancellation and read errors, which only end the stream, are
    left to the caller. */
module LogTail {
  import opened LineSplit

  const BufferSize: nat := 32 * 1024

  // ---------- The tailer ----------

  datatype State = State(offset: nat, carry: string, emitted: seq<string>)

  function Opened(data: string, backfill: nat): State {
    State(|data|, "", Last(AllLines(data), backfill))
  }

  /** One tick: Stat sees size, ReadAt then returns n bytes of file. */
  datatype Poll = Poll(size: nat, file: string, n: nat)

  function StartOf(s: State, p: Poll): nat { if p.size < s.offset then 0 else s.offset }

  predicate CanRead(s: State, p: Poll) {
    p.n <= BufferSize && (p.n > 0 ==> StartOf(s, p) + p.n <= |p.file|)
  }

  /** A read of at most 32 KiB, of bytes that the file has. */
  lemma CanReadIff(s: State, p: Poll)
    ensures CanRead(s, p) <==> p.n <= 32768 && (p.n == 0 || (if p.size < s.offset then 0 else s.offset) + p.n <= |p.file|)
  {
  }

  /** What a tick splits: the carry and the bytes read. */
  function Chunk(s: State, p: Poll): string
    requires CanRead(s, p)
  {
    if p.n == 0 then "" else (if p.size < s.offset then "" else s.carry) + p.file[StartOf(s, p)..StartOf(s, p) + p.n]
  }

  /** A tick whose chunk splits into the given lines and rest. */
  function Advance(s: State, p: Poll, lines: seq<string>, rest: string): State {
    if p.n > 0 then State(StartOf(s, p) + p.n, rest, s.emitted + lines)
    else State(StartOf(s, p), if p.size < s.offset then "" else s.carry, s.emitted)
  }

  class Tailer {
    var offset: nat
    var carry: string
    var emitted: seq<string>

    ghost function Now(): State
      reads this
    {
      State(offset, carry, emitted)
    }

    constructor (data: string, backfill: nat)
      ensures Now() == Opened(data, backfill)
    {
      var lines := BackfillLines(data, backfill);
      offset, carry, emitted := |data|, "", lines;
    }

    method Tick(p: Poll)
      requires CanRead(Now(), p)
      modifies this
      ensures var chunk := Chunk(old(Now()), p); Now() == Advance(old(Now()), p, Lines(chunk), Rest(chunk))
    {
      if p.size < offset {
        offset, carry := 0, "";
      }
      if p.n == 0 {
        return;
      }
      var chunk := carry + p.file[offset..offset + p.n];
      assert chunk == Chunk(old(Now()), p);
      offset := offset + p.n;
      emitted, carry := EmitParts(chunk, emitted);
    }
  }
}
