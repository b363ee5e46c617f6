/** Splitting a log into lines (pkg/logs/tail.go). Characters stand for bytes. */
module LineSplit {
  const Newline: char := '\n'

  // ---------- Lines ----------

  function FirstNewline(s: string): (i: nat)
    ensures i <= |s| && Newline !in s[..i] && (i < |s| ==> s[i] == Newline)
  {
    if s == "" || s[0] == Newline then 0 else
      var i := 1 + FirstNewline(s[1..]);
      assert s[..i] == [s[0]] + s[1..][..i - 1];
      i
  }

  /** The newline-terminated lines of s, without their newlines. */
  function Lines(s: string): seq<string>
    decreases |s|
  {
    var i := FirstNewline(s);
    if i == |s| then [] else [s[..i]] + Lines(s[i + 1..])
  }

  /** What follows the last newline. */
  function Rest(s: string): string
    decreases |s|
  {
    var i := FirstNewline(s);
    if i == |s| then s else Rest(s[i + 1..])
  }

  /** strings.Split(s, "\n") */
  function Split(s: string): seq<string> { Lines(s) + [Rest(s)] }

  function Terminated(lines: seq<string>): string {
    if lines == [] then "" else lines[0] + [Newline] + Terminated(lines[1..])
  }

  lemma {:induction false} FirstNewlineAt(line: string, s: string)
    requires Newline !in line
    ensures FirstNewline(line + [Newline] + s) == |line|
  {
    if line != "" {
      assert (line + [Newline] + s)[1..] == line[1..] + [Newline] + s;
      FirstNewlineAt(line[1..], s);
    }
  }

  /** Lines and rest are the only way to write s as newline-free terminated lines and a newline-free rest. */
  lemma {:induction false} LinesUnique(lines: seq<string>, rest: string)
    requires Newline !in rest && forall l <- lines :: Newline !in l
    ensures Lines(Terminated(lines) + rest) == lines && Rest(Terminated(lines) + rest) == rest
  {
    if lines == [] {
      assert Terminated(lines) + rest == rest;
    } else {
      var tail := Terminated(lines[1..]) + rest;
      assert Terminated(lines) + rest == lines[0] + [Newline] + tail;
      FirstNewlineAt(lines[0], tail);
      assert (lines[0] + [Newline] + tail)[..|lines[0]|] == lines[0];
      assert (lines[0] + [Newline] + tail)[|lines[0]| + 1..] == tail;
      LinesUnique(lines[1..], rest);
    }
  }

  lemma {:induction false} LinesRebuild(s: string)
    ensures Terminated(Lines(s)) + Rest(s) == s
    ensures Newline !in Rest(s) && forall l <- Lines(s) :: Newline !in l
    decreases |s|
  {
    var i := FirstNewline(s);
    if i < |s| {
      LinesRebuild(s[i + 1..]);
      CutAt(s, i);
      AroundIndex(s, i);
      TerminatedCons(s[..i], Lines(s[i + 1..]), Rest(s[i + 1..]));
    } else {
      assert s[..i] == s;
    }
  }

  lemma CutAt(s: string, i: nat)
    requires i == FirstNewline(s) < |s|
    ensures Lines(s) == [s[..i]] + Lines(s[i + 1..])
  {
  }

  lemma AroundIndex(s: string, i: nat)
    requires i < |s|
    ensures s == s[..i] + [s[i]] + s[i + 1..]
  {
  }

  lemma TerminatedCons(line: string, lines: seq<string>, rest: string)
    ensures Terminated([line] + lines) + rest == line + [Newline] + (Terminated(lines) + rest)
  {
    assert ([line] + lines)[1..] == lines;
  }

  lemma LinesCons(line: string, s: string)
    requires Newline !in line
    ensures Lines(line + [Newline] + s) == [line] + Lines(s) && Rest(line + [Newline] + s) == Rest(s)
  {
    var whole := line + [Newline] + s;
    FirstNewlineAt(line, s);
    assert whole[..|line|] == line && whole[|line| + 1..] == s;
  }

  lemma NoLines(s: string)
    requires FirstNewline(s) == |s|
    ensures Lines(s) == [] && Rest(s) == s
  {
  }

  /** Text may be cut anywhere, as long as the rest of the first part is carried into the second. */
  lemma {:induction false} LinesOfConcat(a: string, b: string)
    ensures Lines(a + b) == Lines(a) + Lines(Rest(a) + b)
    ensures Rest(a + b) == Rest(Rest(a) + b)
    decreases |a|
  {
    var i := FirstNewline(a);
    if i < |a| {
      var line, tail := a[..i], a[i + 1..];
      AroundIndex(a, i);
      assert line + [Newline] + tail + b == line + [Newline] + (tail + b);
      LinesCons(line, tail);
      LinesCons(line, tail + b);
      LinesOfConcat(tail, b);
      LineInFront(line, Lines(tail), Lines(Rest(tail) + b));
    } else {
      NoLines(a);
    }
  }

  lemma LineInFront(line: string, a: seq<string>, b: seq<string>)
    ensures [line] + (a + b) == [line] + a + b
  {
  }

  lemma {:induction false} RestEmptyIff(s: string)
    ensures Rest(s) == "" <==> s == "" || s[|s| - 1] == Newline
    decreases |s|
  {
    var i := FirstNewline(s);
    if i < |s| {
      RestEmptyIff(s[i + 1..]);
    } else if s != "" {
      assert s[..i][|s| - 1] == s[|s| - 1];
    }
  }

  // ---------- Backfill ----------

  function AllLines(data: string): seq<string> { Lines(data) + if Rest(data) == "" then [] else [Rest(data)] }

  function Last(s: seq<string>, n: nat): seq<string> { if |s| > n then s[|s| - n..] else s }

  method BackfillLines(data: string, backfill: nat) returns (lines: seq<string>)
    ensures lines == Last(AllLines(data), backfill)
    ensures var all := if Rest(data) == "" then Lines(data) else Lines(data) + [Rest(data)];
            && |lines| == (if |all| < backfill then |all| else backfill)
            && lines == all[|all| - |lines|..]
  {
    lines := Split(data);
    if |lines| > 0 && lines[|lines| - 1] == "" {
      lines := lines[..|lines| - 1];
    }
    if |lines| > backfill {
      lines := lines[|lines| - backfill..];
    }
    LastIs(AllLines(data), backfill);
  }

  lemma LastIs(all: seq<string>, n: nat)
    ensures var last := Last(all, n);
            |last| == (if |all| < n then |all| else n) && last == all[|all| - |last|..]
  {
  }

  /** The parts loop of a tick: every part but the last is sent, the last is carried unless empty. */
  method EmitParts(chunk: string, emitted: seq<string>) returns (emitted': seq<string>, carry: string)
    ensures emitted' == emitted + Lines(chunk) && carry == Rest(chunk)
  {
    var parts := Split(chunk);
    emitted', carry := emitted, "";
    for i := 0 to |parts|
      invariant emitted' == emitted + parts[..if i < |parts| then i else i - 1]
      invariant carry == if i < |parts| then "" else parts[|parts| - 1]
    {
      if i == |parts| - 1 {
        if parts[i] != "" {
          carry := parts[i];
        }
      } else {
        emitted' := emitted' + [parts[i]];
      }
    }
  }

  // ---------- Cutting a file in two ----------

  lemma PartialCounts(partial: string, more: string)
    requires Newline !in partial
    ensures |Lines(partial + more)| == |Lines(more)|
    ensures Lines(more) != [] ==> Lines(partial + more)[0] == partial + Lines(more)[0]
  {
    var i := FirstNewline(more);
    if i < |more| {
      assert more == more[..i] + [Newline] + more[i + 1..];
      assert partial + more == (partial + more[..i]) + [Newline] + more[i + 1..];
      FirstNewlineAt(partial + more[..i], more[i + 1..]);
      assert (partial + more)[|partial| + i + 1..] == more[i + 1..];
      assert (partial + more)[..|partial| + i] == partial + more[..i];
    } else {
      LinesUnique([], partial + more);
      assert more[..i] == more;
      assert Terminated([]) + (partial + more) == partial + more;
    }
  }

  /** A partial last line at open and its completion come out as two lines, the last of the
      backfill and the first of the appended ones, where the file has one. */
  lemma PartialLineIsSplit(data: string, more: string, backfill: nat)
    requires backfill > 0 && Rest(data) != "" && Lines(more) != []
    ensures var b := Last(AllLines(data), backfill);
            && b != [] && b[|b| - 1] == Rest(data)
            && |Lines(data + more)| > |Lines(data)|
            && Lines(data + more)[|Lines(data)|] == b[|b| - 1] + Lines(more)[0]
  {
    LinesRebuild(data);
    LinesOfConcat(data, more);
    PartialCounts(Rest(data), more);
  }

  lemma OneLineMore(a: seq<string>, x: string, b: seq<string>, c: seq<string>)
    requires |b| == |c|
    ensures a + [x] + b != a + c
  {
    assert |a + [x] + b| == |a + c| + 1;
  }

  lemma FileLinesIff(data: string, more: string)
    ensures AllLines(data) + Lines(more) == Lines(data + more) <==> data == "" || data[|data| - 1] == Newline
  {
    var lines, rest := Lines(data), Rest(data);
    LinesOfConcat(data, more);
    RestEmptyIff(data);
    if rest == "" {
      assert rest + more == more && lines + [] == lines;
    } else {
      LinesRebuild(data);
      PartialCounts(rest, more);
      OneLineMore(lines, rest, Lines(more), Lines(rest + more));
    }
  }
}
