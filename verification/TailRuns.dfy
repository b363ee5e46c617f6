/** Runs of the log tailer over a growing file (pkg/logs/tail.go). */
module TailRuns {
  import opened LineSplit
  import opened LogTail

  /** The line splitting a tick uses; its two functions are Lines and Rest. */
  datatype Splitter = Splitter(lines: string -> seq<string>, rest: string -> string)

  function ByLine(): Splitter { Splitter(Lines, Rest) }

  function After(s: State, p: Poll, c: Splitter): State
    requires CanRead(s, p)
  {
    Advance(s, p, c.lines(Chunk(s, p)), c.rest(Chunk(s, p)))
  }

  lemma TickSplitsByLine(s: State, p: Poll)
    requires CanRead(s, p)
    ensures Advance(s, p, Lines(Chunk(s, p)), Rest(Chunk(s, p))) == After(s, p, ByLine())
  {
  }

  // ---------- Appending ----------

  predicate Extends(f: string, g: string) { f <= g }

  /** Splitting can stop anywhere and resume with the rest. */
  ghost predicate Resumes(c: Splitter) {
    && c.lines("") == [] && c.rest("") == ""
    && forall a: string, b: string :: c.lines(a + b) == c.lines(a) + c.lines(c.rest(a) + b) && c.rest(a + b) == c.rest(c.rest(a) + b)
  }

  lemma ByLineResumes()
    ensures Resumes(ByLine())
  {
    var c := ByLine();
    assert FirstNewline("") == 0;
    forall a: string, b: string
      ensures c.lines(a + b) == c.lines(a) + c.lines(c.rest(a) + b) && c.rest(a + b) == c.rest(c.rest(a) + b)
    {
      LinesOfConcat(a, b);
    }
  }

  /** Everything between start and the offset has been emitted line by line. */
  predicate InStep(s: State, file: string, start: nat, base: seq<string>, c: Splitter) {
    && start <= s.offset <= |file|
    && s.emitted == base + c.lines(file[start..s.offset])
    && s.carry == c.rest(file[start..s.offset])
  }

  lemma GrownFile(f: string, g: string, i: nat, j: nat)
    requires f <= g && i <= j <= |f|
    ensures |f| <= |g| && g[i..j] == f[i..j]
  {
  }

  lemma CutFile(f: string, i: nat, j: nat, k: nat)
    requires i <= j <= k <= |f|
    ensures f[i..k] == f[i..j] + f[j..k]
  {
  }

  /** A tick on a file that has only grown keeps step, whatever number of bytes it reads. */
  lemma TickKeepsStep(s: State, file: string, start: nat, base: seq<string>, p: Poll, c: Splitter)
    requires Resumes(c) && InStep(s, file, start, base, c)
    requires Extends(file, p.file) && |file| <= p.size && CanRead(s, p)
    ensures InStep(After(s, p, c), p.file, start, base, c)
  {
    GrownFile(file, p.file, start, s.offset);
    if p.n > 0 {
      var seen, read := p.file[start..s.offset], p.file[s.offset..s.offset + p.n];
      CutFile(p.file, start, s.offset, s.offset + p.n);
      assert c.lines(seen + read) == c.lines(seen) + c.lines(c.rest(seen) + read);
      assert base + c.lines(seen) + c.lines(c.rest(seen) + read) == base + (c.lines(seen) + c.lines(c.rest(seen) + read));
    }
  }

  /** A tick that sees the file shorter than its offset starts over on the file it reads. */
  lemma TickRestarts(s: State, p: Poll, c: Splitter)
    requires Resumes(c) && p.size < s.offset && CanRead(s, p)
    ensures InStep(After(s, p, c), p.file, 0, s.emitted, c)
  {
    if p.n > 0 {
      assert "" + p.file[0..p.n] == p.file[0..p.n];
    }
  }

  /** Each tick sees at least what the tick before read from. */
  ghost predicate Appending(file: string, polls: seq<Poll>)
    decreases |polls|
  {
    polls != [] ==>
      && |file| <= polls[0].size && Extends(file, polls[0].file)
      && Appending(polls[0].file, polls[1..])
  }

  ghost predicate Readable(s: State, polls: seq<Poll>, c: Splitter)
    decreases |polls|
  {
    polls != [] ==> CanRead(s, polls[0]) && Readable(After(s, polls[0], c), polls[1..], c)
  }

  ghost function Run(s: State, polls: seq<Poll>, c: Splitter): State
    requires Readable(s, polls, c)
    decreases |polls|
  {
    if polls == [] then s else Run(After(s, polls[0], c), polls[1..], c)
  }

  function LastFile(file: string, polls: seq<Poll>): string {
    if polls == [] then file else polls[|polls| - 1].file
  }

  lemma {:induction false} RunKeepsStep(s: State, file: string, start: nat, base: seq<string>, polls: seq<Poll>, c: Splitter)
    requires Resumes(c) && InStep(s, file, start, base, c) && Appending(file, polls) && Readable(s, polls, c)
    ensures InStep(Run(s, polls, c), LastFile(file, polls), start, base, c)
    decreases |polls|
  {
    if polls != [] {
      TickKeepsStep(s, file, start, base, polls[0], c);
      RunKeepsStep(After(s, polls[0], c), polls[0].file, start, base, polls[1..], c);
    }
  }

  lemma RunEmits(s: State, file: string, polls: seq<Poll>, c: Splitter)
    requires Resumes(c) && s.offset == |file| && s.carry == "" && Appending(file, polls) && Readable(s, polls, c)
    ensures var t, last := Run(s, polls, c), LastFile(file, polls);
            && |file| <= t.offset <= |last|
            && t.emitted == s.emitted + c.lines(last[|file|..t.offset])
            && t.carry == c.rest(last[|file|..t.offset])
  {
    assert file[|file|..|file|] == "";
    assert s.emitted + [] == s.emitted;
    RunKeepsStep(s, file, |file|, s.emitted, polls, c);
  }

  /** A file that is only appended to: the emitted lines are the backfill, then the complete lines
      of the appended bytes read so far, and the carry is what follows them, however the reads cut
      those bytes. */
  lemma EmitsAppendedLines(data: string, backfill: nat, polls: seq<Poll>)
    requires Appending(data, polls) && Readable(Opened(data, backfill), polls, ByLine())
    ensures var s, file := Run(Opened(data, backfill), polls, ByLine()), LastFile(data, polls);
            && |data| <= s.offset <= |file|
            && s.emitted == Last(AllLines(data), backfill) + Lines(file[|data|..s.offset])
            && s.carry == Rest(file[|data|..s.offset])
  {
    ByLineResumes();
    RunEmits(Opened(data, backfill), data, polls, ByLine());
  }

  /** With a long enough backfill, what is emitted is the lines of the file exactly when the file
      was empty at open or ended in a newline. */
  lemma EmitsFileLinesIff(data: string, backfill: nat, polls: seq<Poll>)
    requires Appending(data, polls) && Readable(Opened(data, backfill), polls, ByLine()) && |AllLines(data)| <= backfill
    ensures var s, file := Run(Opened(data, backfill), polls, ByLine()), LastFile(data, polls);
            && s.offset <= |file|
            && (s.emitted == Lines(file[..s.offset]) <==> data == "" || data[|data| - 1] == Newline)
  {
    var s, file := Run(Opened(data, backfill), polls, ByLine()), LastFile(data, polls);
    EmitsAppendedLines(data, backfill, polls);
    AppendingExtends(data, polls);
    SplitsFile(data, file, s.offset, s.emitted);
  }

  lemma SplitsFile(data: string, file: string, offset: nat, emitted: seq<string>)
    requires Extends(data, file) && |data| <= offset <= |file|
    requires emitted == AllLines(data) + Lines(file[|data|..offset])
    ensures emitted == Lines(file[..offset]) <==> data == "" || data[|data| - 1] == Newline
  {
    assert file[..offset] == data + file[|data|..offset];
    FileLinesIff(data, file[|data|..offset]);
  }

  lemma {:induction false} AppendingExtends(file: string, polls: seq<Poll>)
    requires Appending(file, polls)
    ensures Extends(file, LastFile(file, polls))
    decreases |polls|
  {
    if polls != [] {
      AppendingExtends(polls[0].file, polls[1..]);
    }
  }

  // ---------- The tailer object in a run ----------

  lemma {:induction false} RunSnoc(s: State, polls: seq<Poll>, i: nat, c: Splitter)
    requires i < |polls| && Readable(s, polls, c)
    ensures Readable(s, polls[..i], c) && Readable(s, polls[..i + 1], c)
    ensures CanRead(Run(s, polls[..i], c), polls[i])
    ensures Run(s, polls[..i + 1], c) == After(Run(s, polls[..i], c), polls[i], c)
    decreases |polls|
  {
    if i > 0 {
      RunSnoc(After(s, polls[0], c), polls[1..], i - 1, c);
      assert polls[1..][..i - 1] == polls[..i][1..] && polls[1..][..i] == polls[..i + 1][1..];
    }
  }

  /** Ticking the tailer poll by poll is the run. */
  method Follow(t: Tailer, polls: seq<Poll>)
    requires Readable(t.Now(), polls, ByLine())
    modifies t
    ensures t.Now() == Run(old(t.Now()), polls, ByLine())
  {
    for i := 0 to |polls|
      invariant Readable(old(t.Now()), polls[..i], ByLine())
      invariant t.Now() == Run(old(t.Now()), polls[..i], ByLine())
    {
      RunSnoc(old(t.Now()), polls, i, ByLine());
      TickSplitsByLine(t.Now(), polls[i]);
      t.Tick(polls[i]);
    }
    assert polls[..|polls|] == polls;
  }

  // ---------- Catching up ----------

  predicate ReadsAll(s: State, p: Poll) {
    && CanRead(s, p) && p.size == |p.file| && StartOf(s, p) <= |p.file|
    && p.n == if |p.file| - StartOf(s, p) <= BufferSize then |p.file| - StartOf(s, p) else BufferSize
  }

  ghost predicate FullReads(s: State, polls: seq<Poll>, c: Splitter)
    requires Readable(s, polls, c)
    decreases |polls|
  {
    polls != [] ==> ReadsAll(s, polls[0]) && FullReads(After(s, polls[0], c), polls[1..], c)
  }

  /** A full read is the one that ReadAt makes of a file at rest: all that is there from the offset on,
      or from the start if the file has shrunk, up to 32 KiB of it. */
  lemma ReadsAllIff(s: State, p: Poll)
    ensures var start := if p.size < s.offset then 0 else s.offset;
            ReadsAll(s, p) <==>
            p.size == |p.file| && p.n == if |p.file| - start < 32768 then |p.file| - start else 32768
  {
  }

  /** Full reads of a file that has stopped growing reach its end. */
  lemma {:induction false} CatchesUp(s: State, file: string, polls: seq<Poll>, c: Splitter)
    requires s.offset <= |file| && |file| - s.offset <= |polls| * BufferSize
    requires forall p <- polls :: p.size == |file| && p.file == file
    requires Readable(s, polls, c) && FullReads(s, polls, c)
    ensures Run(s, polls, c).offset == |file|
    decreases |polls|
  {
    if polls != [] {
      assert polls[0] in polls;
      CatchesUp(After(s, polls[0], c), file, polls[1..], c);
    }
  }
}
