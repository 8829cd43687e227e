/**
  Bounded incremental line splitting and bounded body buffering
  (crates/twl-server/src/proxy/stream.rs). The reference splits the whole byte
  stream at once; the buffers see it in chunks of any size.
*/
module LineSplitting {
  import opened Common

  type Byte = bv8
  type Bytes = seq<Byte>

  const NEWLINE: Byte := 10
  const MAX_LINE: nat := 1024 * 1024
  const MAX_ACCOUNTING_BUFFER: nat := 8 * 1024 * 1024

  // -------------------------------------------------------------- reference

  /** The bytes after the last newline. */
  function Tail(s: Bytes): Bytes {
    if s == [] || s[|s| - 1] == NEWLINE then [] else Tail(s[..|s| - 1]) + [s[|s| - 1]]
  }

  /** The newline-terminated lines, each with its newline. */
  function Lines(s: Bytes): seq<Bytes> {
    if s == [] then []
    else
      var rest := s[..|s| - 1];
      if s[|s| - 1] == NEWLINE then Lines(rest) + [Tail(rest) + [NEWLINE]] else Lines(rest)
  }

  /** The lines short enough to be looked at, in order. */
  function Short(lines: seq<Bytes>): seq<Bytes> {
    if lines == [] then []
    else
      var rest, line := Short(lines[..|lines| - 1]), lines[|lines| - 1];
      if |line| <= MAX_LINE then rest + [line] else rest
  }

  function Concat(chunks: seq<Bytes>): Bytes {
    if chunks == [] then [] else Concat(chunks[..|chunks| - 1]) + chunks[|chunks| - 1]
  }

  lemma {:induction false} TailClean(s: Bytes)
    ensures NEWLINE !in Tail(s)
  {
    if s != [] {
      TailClean(s[..|s| - 1]);
    }
  }

  /** Ends in its only newline. */
  predicate IsLine(line: Bytes) {
    line != [] && line[|line| - 1] == NEWLINE && NEWLINE !in line[..|line| - 1]
  }

  lemma LineOf(t: Bytes)
    requires NEWLINE !in t
    ensures IsLine(t + [NEWLINE])
  {
    assert (t + [NEWLINE])[..|t|] == t;
  }

  lemma ConcatAppend(chunks: seq<Bytes>, chunk: Bytes)
    ensures Concat(chunks + [chunk]) == Concat(chunks) + chunk
  {
    assert (chunks + [chunk])[..|chunks|] == chunks;
  }

  lemma {:induction false} LinesAreLines(s: Bytes)
    ensures forall k :: 0 <= k < |Lines(s)| ==> IsLine(Lines(s)[k])
  {
    if s != [] {
      var rest := s[..|s| - 1];
      LinesAreLines(rest);
      TailClean(rest);
      LineOf(Tail(rest));
    }
  }

  lemma {:induction false} SplitJoins(s: Bytes)
    ensures Concat(Lines(s)) + Tail(s) == s
  {
    if s != [] {
      var rest, x := s[..|s| - 1], s[|s| - 1];
      SplitJoins(rest);
      ConcatAppend(Lines(rest), Tail(rest) + [NEWLINE]);
      calc {
        s;
        rest + [x];
        Concat(Lines(rest)) + Tail(rest) + [x];
        Concat(Lines(rest)) + (Tail(rest) + [x]);
        Concat(Lines(s)) + Tail(s);
      }
    }
  }

  /** Splitting loses nothing: proper lines and a newline-free tail, put together, are the stream. */
  lemma {:induction false} SplitIsLossless(s: Bytes)
    ensures Concat(Lines(s)) + Tail(s) == s
    ensures NEWLINE !in Tail(s)
    ensures forall k :: 0 <= k < |Lines(s)| ==> IsLine(Lines(s)[k])
  {
    SplitJoins(s);
    TailClean(s);
    LinesAreLines(s);
  }

  // ------------------------------------------------- the splitter as a function

  datatype Buffer = Buffer(buf: Bytes, discarding: bool)

  const FRESH := Buffer([], false)

  function FirstNewline(s: Bytes): (i: nat)
    ensures i <= |s| && NEWLINE !in s[..i]
    ensures i < |s| ==> s[i] == NEWLINE
  {
    if s == [] || s[0] == NEWLINE then 0
    else
      var i := 1 + FirstNewline(s[1..]);
      assert s[..i] == [s[0]] + s[1..][..i - 1];
      i
  }

  /** Normal scanning: hand out the complete short lines, keep the tail if it fits. */
  function Scan(buf: Bytes): (Buffer, seq<Bytes>) {
    (if |Tail(buf)| > MAX_LINE then Buffer([], true) else Buffer(Tail(buf), false), Short(Lines(buf)))
  }

  function Push(b: Buffer, chunk: Bytes): (Buffer, seq<Bytes>) {
    var buf := b.buf + chunk;
    if !b.discarding then Scan(buf)
    else
      var i := FirstNewline(buf);
      if i < |buf| then Scan(buf[i + 1..])
      else (Buffer(if |buf| > MAX_LINE then [] else buf, true), [])
  }

  function Remainder(b: Buffer): Bytes {
    if b.discarding then [] else b.buf
  }

  /** Pushes the chunks one after the other and collects what is handed out. */
  function PushAll(chunks: seq<Bytes>): (Buffer, seq<Bytes>) {
    if chunks == [] then (FRESH, [])
    else
      var (b, lines) := PushAll(chunks[..|chunks| - 1]);
      var (b', more) := Push(b, chunks[|chunks| - 1]);
      (b', lines + more)
  }

  // ------------------------------------------------------------- refinement

  lemma SplitSnoc(s: Bytes, x: Byte)
    ensures Tail(s + [x]) == if x == NEWLINE then [] else Tail(s) + [x]
    ensures Lines(s + [x]) == if x == NEWLINE then Lines(s) + [Tail(s) + [NEWLINE]] else Lines(s)
  {
    assert (s + [x])[..|s|] == s;
  }

  lemma SplitAppendSnoc(a: Bytes, b: Bytes, x: Byte)
    requires Tail(a + b) == Tail(Tail(a) + b)
    requires Lines(a + b) == Lines(a) + Lines(Tail(a) + b)
    ensures Tail(a + (b + [x])) == Tail(Tail(a) + (b + [x]))
    ensures Lines(a + (b + [x])) == Lines(a) + Lines(Tail(a) + (b + [x]))
  {
    Reassociate(a, b, [x]);
    Reassociate(Tail(a), b, [x]);
    SplitSnoc(a + b, x);
    SplitSnoc(Tail(a) + b, x);
    Reassociate(Lines(a), Lines(Tail(a) + b), [Tail(a + b) + [NEWLINE]]);
  }

  lemma Reassociate<T>(a: seq<T>, b: seq<T>, c: seq<T>)
    ensures a + (b + c) == a + b + c
  {
  }

  lemma {:induction false} SplitAppend(a: Bytes, b: Bytes)
    ensures Tail(a + b) == Tail(Tail(a) + b)
    ensures Lines(a + b) == Lines(a) + Lines(Tail(a) + b)
  {
    if b == [] {
      assert a + b == a && Tail(a) + b == Tail(a);
      TailClean(a);
      NoNewline(Tail(a));
    } else {
      var rest, x := b[..|b| - 1], b[|b| - 1];
      SplitAppend(a, rest);
      SplitAppendSnoc(a, rest, x);
      assert b == rest + [x];
    }
  }

  lemma {:induction false} NoNewline(s: Bytes)
    requires NEWLINE !in s
    ensures Tail(s) == s && Lines(s) == []
  {
    if s != [] {
      assert s[|s| - 1] in s;
      NoNewline(s[..|s| - 1]);
    }
  }

  /** A line is looked at when it has at most a mebibyte. */
  lemma ShortOne(line: Bytes)
    ensures Short([line]) == if |line| <= 1_048_576 then [line] else []
    ensures Short([]) == []
  {
    assert [line][..0] == [];
  }

  /** Whatever stands around it. */
  lemma {:induction false} ShortAppend(a: seq<Bytes>, b: seq<Bytes>)
    ensures Short(a + b) == Short(a) + Short(b)
  {
    if b == [] {
      assert a + b == a;
    } else {
      ShortAppend(a, b[..|b| - 1]);
      assert (a + b)[..|a + b| - 1] == a + b[..|b| - 1];
    }
  }

  /** A newline completes the current line. */
  lemma SplitAtNewline(a: Bytes, head: Bytes)
    requires NEWLINE !in head
    ensures Tail(a + head + [NEWLINE]) == []
    ensures Lines(a + head + [NEWLINE]) == Lines(a) + [Tail(a) + head + [NEWLINE]]
  {
    var upto := a + head + [NEWLINE];
    assert upto[..|upto| - 1] == a + head;
    SplitAppend(a, head);
    TailClean(a);
    NoNewline(Tail(a) + head);
  }

  /** A line that is already too long ends at the next newline and is not handed out. */
  lemma DiscardedLine(a: Bytes, head: Bytes, rest: Bytes)
    requires |Tail(a)| > MAX_LINE && NEWLINE !in head
    ensures Tail(a + head + [NEWLINE] + rest) == Tail(rest)
    ensures Short(Lines(a + head + [NEWLINE] + rest)) == Short(Lines(a)) + Short(Lines(rest))
  {
    var upto := a + head + [NEWLINE];
    SplitAtNewline(a, head);
    SplitAppend(upto, rest);
    assert [] + rest == rest;
    ShortAppend(Lines(a), [Tail(a) + head + [NEWLINE]]);
    ShortAppend(Lines(upto), Lines(rest));
  }

  /** What the buffer knows after the bytes `seen`. */
  ghost predicate Tracks(b: Buffer, seen: Bytes) {
    && |b.buf| <= MAX_LINE
    && (b.discarding <==> |Tail(seen)| > MAX_LINE)
    && (if b.discarding then NEWLINE !in b.buf else b.buf == Tail(seen))
  }

  lemma {:induction false} FirstNewlineSkips(a: Bytes, b: Bytes)
    requires NEWLINE !in a
    ensures FirstNewline(a + b) == |a| + FirstNewline(b)
  {
    if a == [] {
      assert a + b == b;
    } else {
      FirstNewlineSkips(a[1..], b);
      assert (a + b)[1..] == a[1..] + b;
    }
  }

  lemma PushScanning(b: Buffer, seen: Bytes, chunk: Bytes)
    requires Tracks(b, seen) && !b.discarding
    ensures var (b', lines) := Push(b, chunk);
            Tracks(b', seen + chunk) && Short(Lines(seen + chunk)) == Short(Lines(seen)) + lines
  {
    SplitAppend(seen, chunk);
    ShortAppend(Lines(seen), Lines(b.buf + chunk));
  }

  /** In the discard state everything through the next newline is skipped. */
  lemma PushSkips(b: Buffer, head: Bytes, rest: Bytes)
    requires b.discarding && NEWLINE !in b.buf && NEWLINE !in head
    ensures Push(b, head + [NEWLINE] + rest) == Scan(rest)
  {
    var skip, more := b.buf + head, [NEWLINE] + rest;
    FirstNewlineSkips(skip, more);
    assert b.buf + (head + [NEWLINE] + rest) == skip + more;
    assert (skip + more)[|skip| + 1..] == rest;
  }

  lemma PushResumes(b: Buffer, seen: Bytes, head: Bytes, rest: Bytes)
    requires Tracks(b, seen) && b.discarding && NEWLINE !in head
    ensures Push(b, head + [NEWLINE] + rest) == Scan(rest)
    ensures var all := seen + (head + [NEWLINE] + rest);
            Tail(all) == Tail(rest) && Short(Lines(all)) == Short(Lines(seen)) + Short(Lines(rest))
  {
    PushSkips(b, head, rest);
    DiscardedLine(seen, head, rest);
    assert seen + (head + [NEWLINE] + rest) == seen + head + [NEWLINE] + rest;
  }

  lemma PushStaysDiscarding(b: Buffer, seen: Bytes, chunk: Bytes)
    requires Tracks(b, seen) && b.discarding && NEWLINE !in chunk
    ensures Push(b, chunk) == (Buffer(if |b.buf + chunk| > MAX_LINE then [] else b.buf + chunk, true), [])
    ensures |Tail(seen + chunk)| > MAX_LINE && Lines(seen + chunk) == Lines(seen)
  {
    FirstNewlineSkips(b.buf + chunk, []);
    assert b.buf + chunk + [] == b.buf + chunk;
    SplitAppend(seen, chunk);
    TailClean(seen);
    NoNewline(Tail(seen) + chunk);
  }

  lemma PushDiscarding(b: Buffer, seen: Bytes, chunk: Bytes)
    requires Tracks(b, seen) && b.discarding
    ensures var (b', lines) := Push(b, chunk);
            Tracks(b', seen + chunk) && Short(Lines(seen + chunk)) == Short(Lines(seen)) + lines
  {
    var i := FirstNewline(chunk);
    if i < |chunk| {
      assert chunk == chunk[..i] + [NEWLINE] + chunk[i + 1..];
      PushResumes(b, seen, chunk[..i], chunk[i + 1..]);
    } else {
      assert chunk[..i] == chunk;
      PushStaysDiscarding(b, seen, chunk);
    }
  }

  /** One push, whatever the chunk, hands out exactly the short lines it completes. */
  lemma PushRefines(b: Buffer, seen: Bytes, chunk: Bytes)
    requires Tracks(b, seen)
    ensures var (b', lines) := Push(b, chunk);
            Tracks(b', seen + chunk) && Short(Lines(seen + chunk)) == Short(Lines(seen)) + lines
  {
    if b.discarding {
      PushDiscarding(b, seen, chunk);
    } else {
      PushScanning(b, seen, chunk);
    }
  }

  /**
    The splitter refines batch splitting: for every chunking, it has handed out
    exactly the newline-terminated lines of length at most MAX_LINE of the whole
    stream, in order; what remains is the trailing fragment if that fits and
    nothing otherwise; and it never retains more than MAX_LINE bytes.
  */
  lemma {:induction false} SplitterRefinesBatch(chunks: seq<Bytes>)
    ensures var (b, lines) := PushAll(chunks);
            && Tracks(b, Concat(chunks))
            && lines == Short(Lines(Concat(chunks)))
            && Remainder(b) == (if |Tail(Concat(chunks))| <= MAX_LINE then Tail(Concat(chunks)) else [])
            && |b.buf| <= MAX_LINE
  {
    if chunks != [] {
      var before := chunks[..|chunks| - 1];
      SplitterRefinesBatch(before);
      PushRefines(PushAll(before).0, Concat(before), chunks[|chunks| - 1]);
    }
  }

  // ---------------------------------------------------------------- programs

  /** Moving the scan one byte further. */
  lemma ScanStep(buf: Bytes, start: nat, i: nat)
    requires start <= i < |buf| && Tail(buf[..i]) == buf[start..i]
    ensures Tail(buf[..i + 1]) == if buf[i] == NEWLINE then [] else buf[start..i + 1]
    ensures Short(Lines(buf[..i + 1])) == Short(Lines(buf[..i]))
              + if buf[i] == NEWLINE && i + 1 - start <= MAX_LINE then [buf[start..i + 1]] else []
  {
    assert buf[..i + 1] == buf[..i] + [buf[i]];
    SplitSnoc(buf[..i], buf[i]);
    assert buf[start..i + 1] == buf[start..i] + [buf[i]];
    ShortAppend(Lines(buf[..i]), [buf[start..i + 1]]);
    ShortOne(buf[start..i + 1]);
  }

  /** The scan has passed `i` bytes, handed out `lines`, and the current line began at `start`. */
  ghost predicate Scanned(buf: Bytes, start: nat, i: nat, lines: seq<Bytes>) {
    start <= i <= |buf| && Tail(buf[..i]) == buf[start..i] && lines == Short(Lines(buf[..i]))
  }

  lemma ScannedNext(buf: Bytes, start: nat, i: nat, lines: seq<Bytes>)
    requires Scanned(buf, start, i, lines) && i < |buf|
    ensures if buf[i] != NEWLINE then Scanned(buf, start, i + 1, lines)
            else if i + 1 - start > MAX_LINE then Scanned(buf, i + 1, i + 1, lines)
            else Scanned(buf, i + 1, i + 1, lines + [buf[start..i + 1]])
  {
    ScanStep(buf, start, i);
    assert buf[i + 1..i + 1] == [];
  }

  lemma ScannedAll(buf: Bytes, start: nat, lines: seq<Bytes>)
    requires Scanned(buf, start, |buf|, lines)
    ensures Tail(buf) == buf[start..] && lines == Short(Lines(buf))
  {
    assert buf[..|buf|] == buf;
  }

  class LineBuffer {
    var buf: Bytes
    var discarding: bool

    ghost function View(): Buffer
      reads this
    {
      Buffer(buf, discarding)
    }

    constructor ()
      ensures View() == FRESH
    {
      buf, discarding := [], false;
    }

    /** Drops everything through the next newline; `found` is false when there is none. */
    method DiscardLine() returns (found: bool)
      modifies this
      ensures var i := FirstNewline(old(buf));
              && found == (i < |old(buf)|)
              && buf == (if found then old(buf)[i + 1..] else old(buf))
              && discarding == (old(discarding) && !found)
    {
      for i := 0 to |buf|
        invariant buf == old(buf) && discarding == old(discarding)
        invariant NEWLINE !in buf[..i]
      {
        if buf[i] == NEWLINE {
          FirstNewlineSkips(buf[..i], buf[i..]);
          assert buf[..i] + buf[i..] == buf;
          buf := buf[i + 1..];
          discarding := false;
          return true;
        }
      }
      FirstNewlineSkips(buf, []);
      assert buf + [] == buf;
      return false;
    }

    /** One forward scan over the buffer, then one drain. */
    method ScanLines() returns (lines: seq<Bytes>)
      requires !discarding
      modifies this
      ensures (View(), lines) == Scan(old(buf))
    {
      lines := [];
      var start := 0;
      for i := 0 to |buf|
        invariant buf == old(buf) && !discarding
        invariant Scanned(buf, start, i, lines)
      {
        ScannedNext(buf, start, i, lines);
        if buf[i] == NEWLINE {
          var length := i + 1 - start;
          if length > MAX_LINE {
            start := i + 1;
            continue;
          }
          lines := lines + [buf[start..i + 1]];
          start := i + 1;
        }
      }
      ScannedAll(buf, start, lines);
      buf := buf[start..];
      if |buf| > MAX_LINE {
        discarding := true;
        buf := [];
      }
    }

    /** Appends `chunk`; `lines` are the calls to `on_line`, in order. */
    method PushChunk(chunk: Bytes) returns (lines: seq<Bytes>)
      modifies this
      ensures (View(), lines) == Push(old(View()), chunk)
    {
      buf := buf + chunk;
      if discarding {
        var found := DiscardLine();
        if !found {
          if |buf| > MAX_LINE {
            buf := [];
          }
          return [];
        }
      }
      lines := ScanLines();
    }
  }

  /** Accumulates a body until it would exceed the accounting cap. */
  class BoundedBuffer {
    var buf: Bytes
    var overflowed: bool
    /** Everything pushed so far. */
    ghost var seen: Bytes

    ghost predicate Valid()
      reads this
    {
      if |seen| <= MAX_ACCOUNTING_BUFFER then !overflowed && buf == seen else overflowed && buf == []
    }

    constructor ()
      ensures Valid() && seen == []
    {
      buf, overflowed, seen := [], false, [];
    }

    method PushChunk(chunk: Bytes)
      requires Valid()
      modifies this
      ensures Valid() && seen == old(seen) + chunk
    {
      seen := seen + chunk;
      if overflowed {
        return;
      }
      if |buf| + |chunk| > MAX_ACCOUNTING_BUFFER {
        overflowed := true;
        buf := [];
      } else {
        buf := buf + chunk;
      }
    }

    /** The whole body if it fit, whatever the chunking. */
    method Complete() returns (body: Option<Bytes>)
      requires Valid()
      ensures body == if |seen| <= MAX_ACCOUNTING_BUFFER then Some(seen) else None
    {
      body := if overflowed then None else Some(buf);
    }
  }
}
