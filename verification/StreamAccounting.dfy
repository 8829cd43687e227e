/**
  Usage accounting over a streamed response (crates/twl-server/src/proxy/stream.rs):
  merging the observations of one response, and the accounting streams that feed
  the merge from a body arriving in chunks.
*/
module StreamAccounting {
  import opened Common
  import opened Json
  import opened UsageExtraction
  import opened LineSplitting

  // -------------------------------------------------------------------- merge

  function Accumulate(current: Option<Usage>, next: Usage): Usage {
    match current
    case None => next
    case Some(u) =>
      var input, output := Max(u.input, next.input), Max(u.output, next.output);
      u.(model := if u.model == UNKNOWN then next.model else u.model,
         input := input,
         output := output,
         cached := Max(u.cached, next.cached),
         total := Max(Max(u.total, next.total), SatAdd(input, output)))
  }

  /** All observations of one response, merged in order. */
  function Merge(us: seq<Usage>): (r: Option<Usage>)
    ensures r.None? <==> us == []
  {
    if us == [] then None else Some(Accumulate(Merge(us[..|us| - 1]), us[|us| - 1]))
  }

  /** `m` is the largest value of `f` over the records. */
  ghost predicate IsMax(m: int, us: seq<Usage>, f: Usage -> int) {
    && (exists u :: u in us && f(u) == m)
    && (forall u :: u in us ==> f(u) <= m)
  }

  function Input(): Usage -> int { (u: Usage) => u.input }
  function Output(): Usage -> int { (u: Usage) => u.output }
  function Cached(): Usage -> int { (u: Usage) => u.cached }
  function Total(): Usage -> int { (u: Usage) => u.total }

  lemma IsMaxAppend(m: int, us: seq<Usage>, u: Usage, f: Usage -> int)
    requires IsMax(m, us, f)
    ensures IsMax(Max(m, f(u)), us + [u], f)
  {
    var w :| w in us && f(w) == m;
    var x := if m < f(u) then u else w;
    assert x in us + [u] && f(x) == Max(m, f(u));
  }

  lemma IsMaxOne(u: Usage, f: Usage -> int)
    ensures IsMax(f(u), [u], f)
  {
    assert u in [u];
  }

  lemma {:induction false} MergeMaxima(us: seq<Usage>)
    requires us != []
    ensures var m := Merge(us).value;
            IsMax(m.input, us, Input()) && IsMax(m.output, us, Output()) && IsMax(m.cached, us, Cached())
  {
    var before, last := us[..|us| - 1], us[|us| - 1];
    assert us == before + [last];
    if before == [] {
      assert us == [last];
      IsMaxOne(last, Input());
      IsMaxOne(last, Output());
      IsMaxOne(last, Cached());
    } else {
      MergeMaxima(before);
      var m := Merge(before).value;
      IsMaxAppend(m.input, before, last, Input());
      IsMaxAppend(m.output, before, last, Output());
      IsMaxAppend(m.cached, before, last, Cached());
    }
  }

  /** The merged total: of one record its own, of several also at least the saturated sum. */
  lemma {:induction false} MergeTotal(us: seq<Usage>, top: int)
    requires us != [] && IsMax(top, us, Total())
    ensures var m := Merge(us).value;
            m.total == if |us| == 1 then top else Max(top, SatAdd(m.input, m.output))
  {
    var before, last := us[..|us| - 1], us[|us| - 1];
    assert us == before + [last];
    if before == [] {
      assert us == [last];
      assert last in us;
    } else {
      var t := MaxTotal(before);
      MergeTotal(before, t);
      IsMaxAppend(t, before, last, Total());
      assert top == Max(t, last.total) by {
        MaxUnique(top, Max(t, last.total), us, us, Total());
      }
    }
  }

  lemma {:induction false} MaxTotal(us: seq<Usage>) returns (t: int)
    requires us != []
    ensures IsMax(t, us, Total())
  {
    var before, last := us[..|us| - 1], us[|us| - 1];
    assert us == before + [last];
    if before == [] {
      t := last.total;
      assert us == [last];
      IsMaxOne(last, Total());
    } else {
      t := MaxTotal(before);
      IsMaxAppend(t, before, last, Total());
      t := Max(t, last.total);
    }
  }

  /** Maxima depend only on which records there are. */
  lemma MaxUnique(m: int, n: int, us: seq<Usage>, vs: seq<Usage>, f: Usage -> int)
    requires IsMax(m, us, f) && IsMax(n, vs, f)
    requires forall u :: u in us <==> u in vs
    ensures m == n
  {
    var u :| u in us && f(u) == m;
    var v :| v in vs && f(v) == n;
  }

  predicate SameCounts(a: Usage, b: Usage) {
    a.input == b.input && a.output == b.output && a.cached == b.cached && a.total == b.total
  }

  /** The merged counts do not depend on the order of the observations. */
  lemma MergeOrderIndependent(us: seq<Usage>, vs: seq<Usage>)
    requires us != [] && multiset(us) == multiset(vs)
    ensures vs != [] && SameCounts(Merge(us).value, Merge(vs).value)
  {
    assert |us| == |multiset(us)| == |vs|;
    forall u
      ensures u in us <==> u in vs
    {
      assert u in us <==> u in multiset(us);
      assert u in vs <==> u in multiset(vs);
    }
    MergeMaxima(us);
    MergeMaxima(vs);
    var m, n := Merge(us).value, Merge(vs).value;
    MaxUnique(m.input, n.input, us, vs, Input());
    MaxUnique(m.output, n.output, us, vs, Output());
    MaxUnique(m.cached, n.cached, us, vs, Cached());
    var s := MaxTotal(us);
    var t := MaxTotal(vs);
    MaxUnique(s, t, us, vs, Total());
    MergeTotal(us, s);
    MergeTotal(vs, t);
  }

  /** Merging sane records gives a sane record. */
  lemma {:induction false} MergeSane(us: seq<Usage>)
    requires us != [] && forall u :: u in us ==> Sane(u)
    ensures Sane(Merge(us).value)
  {
    var before, last := us[..|us| - 1], us[|us| - 1];
    assert us == before + [last] && last in us;
    if before != [] {
      MergeSane(before);
    }
  }

  /** The serving model is the first one that is known. */
  lemma {:induction false} MergeModel(us: seq<Usage>)
    requires us != []
    ensures var m := Merge(us).value;
            && m.endpoint == us[0].endpoint
            && (m.model == UNKNOWN <==> forall i :: 0 <= i < |us| ==> us[i].model == UNKNOWN)
            && (m.model != UNKNOWN ==>
                  exists i :: 0 <= i < |us| && us[i].model == m.model
                    && forall j :: 0 <= j < i ==> us[j].model == UNKNOWN)
  {
    var n := |us| - 1;
    if n > 0 {
      MergeModel(us[..n]);
      assert forall j :: 0 <= j < n ==> us[..n][j] == us[j];
    }
  }

  /** No count of the merged record is below that of an observation. */
  lemma MergeCovers(us: seq<Usage>, u: Usage)
    requires u in us
    ensures var m := Merge(us).value;
            u.input <= m.input && u.output <= m.output && u.cached <= m.cached && u.total <= m.total
  {
    MergeMaxima(us);
    var t := MaxTotal(us);
    MergeTotal(us, t);
    assert Input()(u) == u.input && Output()(u) == u.output && Cached()(u) == u.cached && Total()(u) == u.total;
  }

  lemma MergeSnoc(us: seq<Usage>, u: Usage)
    requires us != []
    ensures Merge(us + [u]) == Some(Accumulate(Merge(us), u))
  {
    assert (us + [u])[..|us|] == us;
  }

  lemma SeveralCoverSum(us: seq<Usage>)
    requires |us| > 1
    ensures var m := Merge(us).value; m.total >= SatAdd(m.input, m.output)
  {
    var t := MaxTotal(us);
    MergeTotal(us, t);
  }

  /**
    Seeing an observation again changes nothing, except that a lone record whose
    reported total is below its own sum has that total corrected.
  */
  lemma RepeatIsHarmless(us: seq<Usage>, u: Usage)
    requires u in us && forall x :: x in us ==> Sane(x)
    ensures SameCounts(Merge(us + [u]).value, Merge(us).value)
       <==> |us| > 1 || u.total >= SatAdd(u.input, u.output)
  {
    MergeSnoc(us, u);
    MergeCovers(us, u);
    if |us| > 1 {
      SeveralCoverSum(us);
    } else {
      assert us == [u];
    }
  }

  /**
    The exception is real: a chat completion that reports one prompt token, one
    completion token and a total of one is recorded with that total, and seeing
    its usage block twice in a stream records a total of two.
  */
  lemma RepeatCorrectsTotal(requested: Option<string>)
    ensures var u := Usage("m", "/v1/chat/completions", 1, 1, 0, 1, None);
            && Extract(RenderChat(u), u.endpoint, requested) == Some(u)
            && Merge([u]) == Some(u)
            && Merge([u, u]) == Some(u.(total := 2))
  {
    var u := Usage("m", "/v1/chat/completions", 1, 1, 0, 1, None);
    ChatRoundTrip(u, requested);
    assert [u][..0] == [] && [u, u][..1] == [u];
  }

  /** The usage a response has shown so far. */
  class UsageRecorder {
    var usage: Option<Usage>
    ghost var observed: seq<Usage>

    ghost predicate Valid()
      reads this
    {
      usage == Merge(observed)
    }

    constructor ()
      ensures Valid() && observed == []
    {
      usage, observed := None, [];
    }

    method Observe(next: Usage)
      requires Valid()
      modifies this
      ensures Valid() && observed == old(observed) + [next]
    {
      assert (observed + [next])[..|observed|] == observed;
      observed := observed + [next];
      if usage.None? {
        usage := Some(next);
        return;
      }
      var u := usage.value;
      if u.model == UNKNOWN {
        u := u.(model := next.model);
      }
      u := u.(input := Max(u.input, next.input));
      u := u.(output := Max(u.output, next.output));
      u := u.(cached := Max(u.cached, next.cached));
      u := u.(total := Max(Max(u.total, next.total), SatAdd(u.input, u.output)));
      usage := Some(u);
    }
  }

  // ------------------------------------------------------------------ streams

  /** What the upstream yields: bytes, or a transport error that ends the response. */
  datatype Item = Chunk(bytes: Bytes) | Failed

  type Parser = Bytes -> Option<Usage>

  /** The items that are forwarded: everything through the first error. */
  function Forwarded(items: seq<Item>): (r: seq<Item>)
    ensures |r| <= |items|
  {
    if items == [] then []
    else if items[0].Failed? then [Failed]
    else [items[0]] + Forwarded(items[1..])
  }

  /** The body bytes: the chunks before the first error. */
  function Body(items: seq<Item>): Bytes {
    if items == [] || items[0].Failed? then [] else items[0].bytes + Body(items[1..])
  }

  function ParseAll(parse: Parser, lines: seq<Bytes>): seq<Usage> {
    if lines == [] then []
    else
      var rest, u := ParseAll(parse, lines[..|lines| - 1]), parse(lines[|lines| - 1]);
      if u.Some? then rest + [u.value] else rest
  }

  /** The reference: split the whole body at once, parse its short lines and its trailing fragment. */
  function BatchUsage(parse: Parser, body: Bytes): Option<Usage> {
    var fragment := if |Tail(body)| <= MAX_LINE then Tail(body) else [];
    Merge(ParseAll(parse, Short(Lines(body)) + [fragment]))
  }

  /** Every line is parsed on its own. */
  lemma ParseOne(parse: Parser, line: Bytes)
    ensures ParseAll(parse, [line]) == if parse(line).Some? then [parse(line).value] else []
    ensures ParseAll(parse, []) == []
  {
    assert [line][..0] == [];
  }

  lemma {:induction false} ParseAppend(parse: Parser, a: seq<Bytes>, b: seq<Bytes>)
    ensures ParseAll(parse, a + b) == ParseAll(parse, a) + ParseAll(parse, b)
  {
    if b == [] {
      assert a + b == a;
    } else {
      ParseAppend(parse, a, b[..|b| - 1]);
      assert (a + b)[..|a + b| - 1] == a + b[..|b| - 1];
    }
  }

  /** Feeds the lines of one chunk to the recorder. */
  method ObserveLines(parse: Parser, lines: seq<Bytes>, recorder: UsageRecorder)
    requires recorder.Valid()
    modifies recorder
    ensures recorder.Valid() && recorder.observed == old(recorder.observed) + ParseAll(parse, lines)
  {
    for i := 0 to |lines|
      invariant recorder.Valid()
      invariant recorder.observed == old(recorder.observed) + ParseAll(parse, lines[..i])
    {
      assert lines[..i + 1][..i] == lines[..i];
      var u := parse(lines[i]);
      if u.Some? {
        recorder.Observe(u.value);
      }
    }
    assert lines[..|lines|] == lines;
  }

  lemma {:induction false} BodySnoc(items: seq<Item>, n: nat)
    requires n < |items| && forall i :: 0 <= i <= n ==> items[i].Chunk?
    ensures Body(items[..n + 1]) == Body(items[..n]) + items[n].bytes
    ensures Forwarded(items[..n]) == items[..n]
  {
    if n == 0 {
      assert items[..1] == [items[0]] && items[..1][1..] == [] && items[..0] == [];
    } else {
      BodySnoc(items[1..], n - 1);
      assert items[..n + 1][1..] == items[1..][..n];
      assert items[..n][1..] == items[1..][..n - 1];
    }
  }

  lemma {:induction false} BodyStops(items: seq<Item>, n: nat)
    requires n <= |items| && forall i :: 0 <= i < n ==> items[i].Chunk?
    requires n < |items| ==> items[n].Failed?
    ensures Body(items) == Body(items[..n])
    ensures Forwarded(items) == items[..n] + if n < |items| then [Failed] else []
  {
    if n > 0 {
      BodyStops(items[1..], n - 1);
      assert items[..n][1..] == items[1..][..n - 1];
    }
  }

  /** The body is what the chunks before the first error carry, one after the other. */
  lemma {:induction false} BodyIs(items: seq<Item>, n: nat)
    requires n <= |items| && forall i :: 0 <= i < n ==> items[i].Chunk?
    requires n < |items| ==> items[n].Failed?
    ensures Body(items) == Concat(seq(n, i requires 0 <= i < n => items[i].bytes))
  {
    BodyStops(items, n);
    ChunksJoin(items, n);
  }

  lemma {:induction false} ChunksJoin(items: seq<Item>, n: nat)
    requires n <= |items| && forall i :: 0 <= i < n ==> items[i].Chunk?
    ensures Body(items[..n]) == Concat(seq(n, i requires 0 <= i < n => items[i].bytes))
  {
    if n > 0 {
      ChunksJoin(items, n - 1);
      BodySnoc(items, n - 1);
      assert seq(n, i requires 0 <= i < n => items[i].bytes)[..n - 1]
          == seq(n - 1, i requires 0 <= i < n - 1 => items[i].bytes);
    }
  }

  /** What has been forwarded when the chunks run out, and what a client that leaves then has seen. */
  lemma StreamEnds(items: seq<Item>, n: nat, polls: nat)
    requires n <= |items| && n <= polls && forall i :: 0 <= i < n ==> items[i].Chunk?
    requires n < |items| ==> items[n].Failed?
    ensures Body(items) == Body(items[..n])
    ensures var forwarded := items[..n] + if n < |items| && n < polls then [Failed] else [];
            && (|forwarded| < polls <==> |Forwarded(items)| < polls)
            && (|forwarded| < polls ==> forwarded == Forwarded(items))
            && (|forwarded| == polls ==>
                  && polls <= |items| && forwarded == Forwarded(items)[..polls]
                  && Body(items[..polls]) == Body(items[..n]))
  {
    BodyStops(items, n);
    if n < |items| && n + 1 == polls {
      BodyStops(items[..n + 1], n);
      assert items[..n + 1][..n] == items[..n];
    }
  }

  /** The buffer and the recorder have seen the bytes `seen`. */
  ghost predicate InStep(parse: Parser, lines: LineBuffer, recorder: UsageRecorder, seen: Bytes)
    reads lines, recorder
  {
    && recorder.Valid()
    && Tracks(lines.View(), seen)
    && recorder.observed == ParseAll(parse, Short(Lines(seen)))
  }

  /** One turn of the stream loop: push the chunk and look at every line it completes. */
  method FeedChunk(parse: Parser, lines: LineBuffer, recorder: UsageRecorder, chunk: Bytes, ghost seen: Bytes)
    requires InStep(parse, lines, recorder, seen)
    modifies lines, recorder
    ensures InStep(parse, lines, recorder, seen + chunk)
  {
    PushRefines(lines.View(), seen, chunk);
    var delivered := lines.PushChunk(chunk);
    ParseAppend(parse, Short(Lines(seen)), delivered);
    ObserveLines(parse, delivered, recorder);
  }

  /** After the last chunk: look at the trailing fragment. */
  method FlushFragment(parse: Parser, lines: LineBuffer, recorder: UsageRecorder, ghost seen: Bytes)
    requires InStep(parse, lines, recorder, seen)
    modifies recorder
    ensures recorder.usage == BatchUsage(parse, seen)
  {
    var fragment := if lines.discarding then [] else lines.buf;
    ParseAppend(parse, Short(Lines(seen)), [fragment]);
    ObserveLines(parse, [fragment], recorder);
  }

  /** Forwards chunks and looks at their lines until the client leaves, an error arrives or all are sent. */
  method ForwardChunks(parse: Parser, items: seq<Item>, polls: nat, lines: LineBuffer, recorder: UsageRecorder)
    returns (sent: nat)
    requires InStep(parse, lines, recorder, [])
    modifies lines, recorder
    ensures sent <= |items| && sent <= polls && forall j :: 0 <= j < sent ==> items[j].Chunk?
    ensures sent == polls || sent == |items| || items[sent].Failed?
    ensures InStep(parse, lines, recorder, Body(items[..sent]))
  {
    sent := 0;
    while sent < |items| && sent < polls && items[sent].Chunk?
      invariant sent <= |items| && sent <= polls && forall j :: 0 <= j < sent ==> items[j].Chunk?
      invariant InStep(parse, lines, recorder, Body(items[..sent]))
    {
      FeedChunk(parse, lines, recorder, items[sent].bytes, Body(items[..sent]));
      BodySnoc(items, sent);
      sent := sent + 1;
    }
  }

  /**
    The line-based accounting stream. The client polls it at most `polls` times
    and then goes away; whatever was recorded by then is what counts. One more
    poll than there are items reaches the end, where the fragment is flushed.
  */
  method AccountLines(parse: Parser, items: seq<Item>, polls: nat)
    returns (forwarded: seq<Item>, usage: Option<Usage>, complete: bool)
    ensures complete <==> |Forwarded(items)| < polls
    ensures complete ==> forwarded == Forwarded(items) && usage == BatchUsage(parse, Body(items))
    ensures complete ==>
              var tail := Tail(Body(items));
              usage == Merge(ParseAll(parse, Short(Lines(Body(items))) + [if |tail| <= 1_048_576 then tail else []]))
    ensures !complete ==>
              && forwarded == Forwarded(items)[..polls]
              && usage == Merge(ParseAll(parse, Short(Lines(Body(items[..polls])))))
  {
    var recorder := new UsageRecorder();
    var lines := new LineBuffer();
    var sent := ForwardChunks(parse, items, polls, lines, recorder);
    forwarded := items[..sent];
    if sent < |items| && items[sent].Chunk? {
      LongForwarded(items, sent);
      return forwarded, recorder.usage, false;
    }
    StreamEnds(items, sent, polls);
    if sent < |items| && sent < polls {
      forwarded := forwarded + [Failed];
    }
    if |forwarded| == polls {
      return forwarded, recorder.usage, false;
    }
    FlushFragment(parse, lines, recorder, Body(items));
    return forwarded, recorder.usage, true;
  }

  lemma {:induction false} LongForwarded(items: seq<Item>, n: nat)
    requires n < |items| && forall i :: 0 <= i <= n ==> items[i].Chunk?
    ensures |Forwarded(items)| > n && Forwarded(items)[..n] == items[..n]
  {
    if n > 0 {
      LongForwarded(items[1..], n - 1);
    }
  }

  /** Chunking is irrelevant: two responses with the same body bytes are accounted alike. */
  lemma ChunkingIrrelevant(parse: Parser, chunks: seq<Bytes>)
    ensures var (b, lines) := PushAll(chunks);
            Merge(ParseAll(parse, lines + [Remainder(b)])) == BatchUsage(parse, Concat(chunks))
  {
    SplitterRefinesBatch(chunks);
  }

  /** Known shapes first, then the heuristic fallback. */
  function FinalizeBuffered(decode: Bytes -> Option<Json>, body: Bytes, endpoint: string, requested: Option<string>)
    : (r: Option<Usage>)
    ensures r.Some? ==> decode(body).Some? && Sane(r.value)
    ensures decode(body).Some? && Extract(decode(body).value, endpoint, requested).Some? ==>
              r == Extract(decode(body).value, endpoint, requested)
    ensures r.None? && decode(body).Some? ==> forall o :: Within(decode(body).value, o) ==> !HasCount(o)
  {
    match decode(body)
    case None => None
    case Some(v) =>
      ExtractSane(v, endpoint, requested);
      ScavengeSane(v, endpoint, requested);
      ScavengeExactly(v, endpoint, requested);
      var known := Extract(v, endpoint, requested);
      if known.Some? then known else Scavenge(v, endpoint, requested)
  }

  /**
    The buffered accounting stream, polled at most `polls` times: the body is
    parsed only when the client stays to the end and the body fit the buffer.
  */
  method AccountBody(decode: Bytes -> Option<Json>, items: seq<Item>, parse: bool, endpoint: string,
                     requested: Option<string>, polls: nat)
    returns (forwarded: seq<Item>, usage: Option<Usage>, complete: bool)
    ensures complete <==> |Forwarded(items)| < polls
    ensures forwarded == if complete then Forwarded(items) else Forwarded(items)[..polls]
    ensures usage == if complete && parse && |Body(items)| <= MAX_ACCOUNTING_BUFFER
                     then FinalizeBuffered(decode, Body(items), endpoint, requested) else None
  {
    var body := new BoundedBuffer();
    forwarded := [];
    var i := 0;
    while i < |items| && items[i].Chunk?
      invariant i <= |items| && i <= polls && forwarded == items[..i]
      invariant forall j :: 0 <= j < i ==> items[j].Chunk?
      invariant body.Valid() && body.seen == if parse then Body(items[..i]) else []
    {
      if i == polls {
        LongForwarded(items, i);
        return forwarded, None, false;
      }
      BodySnoc(items, i);
      if parse {
        body.PushChunk(items[i].bytes);
      }
      forwarded := forwarded + [items[i]];
      i := i + 1;
    }
    StreamEnds(items, i, polls);
    if i < |items| && i < polls {
      forwarded := forwarded + [Failed];
    }
    if |forwarded| == polls {
      return forwarded, None, false;
    }
    var whole := body.Complete();
    usage := if parse && whole.Some? then FinalizeBuffered(decode, whole.value, endpoint, requested) else None;
    return forwarded, usage, true;
  }
}
