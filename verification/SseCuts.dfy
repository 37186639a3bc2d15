/** When the way a response is cut into chunks shows: in what was sent before a failure, and there
    only for some streams that are not valid UTF-8. */
module SseCuts {
  import opened Text
  import opened Utf8
  import opened SseLines
  import opened ToolCalls
  import opened Sse

  predicate LfEndsAt(s: seq<byte>, n: nat)
    requires n <= |s|
  {
    n >= 2 && s[n - 2] == 10 && s[n - 1] == 10
  }

  predicate CrEndsAt(s: seq<byte>, n: nat)
    requires n <= |s|
  {
    n >= 4 && s[n - 4] == 13 && s[n - 3] == 10 && s[n - 2] == 13 && s[n - 1] == 10
  }

  /** The stream may have been consumed up to here: a separator ends and all before is valid. */
  predicate SafeAt(s: seq<byte>, n: nat)
    requires n <= |s|
  {
    (n == 0 || SeparatorEndsAt(s, n)) && Valid(s[..n])
  }

  /** The last such place among the first `n` bytes. */
  function SafeFrom(s: seq<byte>, n: nat): (x: nat)
    requires n <= |s|
    ensures x <= n && SafeAt(s, x) && forall z: nat :: x < z <= n ==> !SafeAt(s, z)
  {
    if n == 0 || SafeAt(s, n) then n else SafeFrom(s, n - 1)
  }

  function SafeEnd(s: seq<byte>): (x: nat)
    ensures x <= |s|
  {
    SafeFrom(s, |s|)
  }

  /** Where the last LF LF among the first `n` bytes ends. */
  function LfFrom(s: seq<byte>, n: nat): (x: nat)
    requires n <= |s|
    ensures x <= n && (x == 0 || LfEndsAt(s, x)) && forall z: nat :: x < z <= n ==> !LfEndsAt(s, z)
  {
    if n == 0 || LfEndsAt(s, n) then n else LfFrom(s, n - 1)
  }

  /** No LF LF ends after the last safe place, or no payload lies between the last LF LF before that
      place and the place. */
  ghost predicate Steady(s: seq<byte>) {
    var x := SafeEnd(s);
    (forall z: nat :: x < z <= |s| ==> !LfEndsAt(s, z)) || Payloads(s[LfFrom(s, x)..x]) == []
  }

  // ----- prefixes of the stream

  predicate LineStart(s: seq<byte>, n: nat)
    requires n <= |s|
  {
    n == 0 || s[n - 1] == 10
  }

  lemma PayloadsSplit(s: seq<byte>, a: nat, b: nat)
    requires a <= b <= |s| && LineStart(s, a)
    ensures Payloads(s[..b]) == Payloads(s[..a]) + Payloads(s[a..b])
  {
    hide Payloads;
    assert s[..b] == s[..a] + s[a..b];
    PayloadsConcat(s[..a], s[a..b]);
  }

  lemma PayloadsMiddle(s: seq<byte>, a: nat, b: nat, c: nat)
    requires a <= b <= c <= |s| && LineStart(s, a) && LineStart(s, b)
    ensures Payloads(s[a..c]) == Payloads(s[a..b]) + Payloads(s[b..c])
  {
    hide Payloads;
    assert s[a..c] == s[a..b] + s[b..c];
    if a < b { assert s[a..b][|s[a..b]| - 1] == s[b - 1]; }
    PayloadsConcat(s[a..b], s[b..c]);
  }

  lemma ValidDown(s: seq<byte>, a: nat, b: nat)
    requires a <= b <= |s| && LineStart(s, a) && Valid(s[..b])
    ensures Valid(s[..a])
  {
    hide Valid;
    if a > 0 {
      assert s[..b] == s[..a - 1] + s[a - 1..b] && s[a - 1..b][0] == 10;
      ValidSplit(s[..a - 1], s[a - 1..b]);
      assert s[..a] == s[..a - 1] + [10];
      ValidSplit(s[..a - 1], [10]);
      ValidAscii([10]);
    } else {
      assert s[..0] == [];
      ValidAscii([]);
    }
  }

  ghost predicate BreaksOnly(s: seq<byte>, a: nat, b: nat)
    requires a <= b <= |s|
  {
    forall i :: a <= i < b ==> IsBreak(s[i])
  }

  lemma PayloadsOverBreaks(s: seq<byte>, a: nat, b: nat)
    requires a <= b <= |s| && BreaksOnly(s, a, b)
    ensures Payloads(s[..b]) == Payloads(s[..a])
  {
    hide Payloads;
    assert s[..b] == s[..a] + s[a..b];
    PayloadsTrailing(s[..a], s[a..b]);
  }

  // ----- where decoding stops

  /** Nothing but line breaks up to the last safe place, or an LF LF behind that place is the first
      one from here on. */
  ghost predicate NoFurther(s: seq<byte>, c: nat)
    requires c <= |s|
  {
    var x := SafeEnd(s);
    || (c <= x && BreaksOnly(s, c, x))
    || exists y: nat :: FirstLf(s, c, y) && x < y
  }

  ghost predicate FirstLf(s: seq<byte>, c: nat, y: nat) {
    y <= |s| && LfEndsAt(s, y) && forall z: nat :: c + 2 <= z < y ==> !LfEndsAt(s, z)
  }

  /** No separator that begins at `c` or later ends before `y`. */
  ghost predicate NoneBefore(s: seq<byte>, c: nat, y: nat)
    requires y <= |s| + 1
  {
    forall z: nat :: z < y ==> !(c + 2 <= z && LfEndsAt(s, z)) && !(c + 4 <= z && CrEndsAt(s, z))
  }

  /** The payloads of the first `c` bytes, gathered. */
  ghost function UpTo(s: seq<byte>, c: nat, parse: Parser): Handled
    requires c <= |s|
  {
    AbsorbAll(Payloads(s[..c]), NOTHING, parse)
  }

  /** Decoding may stop with what the first `c` bytes gave: on a payload that does not parse, or with
      no further safe place to go to. */
  ghost predicate StopsAt(s: seq<byte>, c: nat, parse: Parser) {
    c <= |s| && SafeAt(s, c) && (UpTo(s, c, parse).Bad? || NoFurther(s, c))
  }

  lemma SafeIsLineStart(s: seq<byte>, c: nat)
    requires c <= |s| && SafeAt(s, c)
    ensures LineStart(s, c) && c <= SafeEnd(s)
  {
  }

  /** If no separator from `c` on ends before `y` and the last safe place does, there are only line
      breaks up to it. */
  lemma BreaksToSafeEnd(s: seq<byte>, c: nat, y: nat)
    requires c <= |s| && SafeAt(s, c) && y <= |s| + 1 && NoneBefore(s, c, y) && SafeEnd(s) < y
    ensures NoFurther(s, c)
  {
    var x := SafeEnd(s);
    SafeIsLineStart(s, c);
    hide Valid, SafeFrom;
    if c < x { assert LfEndsAt(s, x) || CrEndsAt(s, x); }
    assert BreaksOnly(s, c, x);
  }

  lemma SeparatorInBuffer(s: seq<byte>, c: nat, m: nat, z: nat)
    requires c <= z <= m <= |s|
    ensures c + 2 <= z ==> (LfEndsAt(s, z) <==> HasAt(s[c..m], LFLF, z - c - 2))
    ensures c + 4 <= z ==> (CrEndsAt(s, z) <==> HasAt(s[c..m], CRLFCRLF, z - c - 4))
  {
    hide HasAt;
    if c + 2 <= z { LfInBuffer(s[c..m], z - c - 2); }
    if c + 4 <= z { CrInBuffer(s[c..m], z - c - 4); }
  }

  lemma LfInBuffer(b: seq<byte>, i: nat)
    requires i + 2 <= |b|
    ensures HasAt(b, LFLF, i) <==> b[i] == 10 && b[i + 1] == 10
  {
    assert b[i..i + 2] == [b[i], b[i + 1]];
  }

  lemma CrInBuffer(b: seq<byte>, i: nat)
    requires i + 4 <= |b|
    ensures HasAt(b, CRLFCRLF, i) <==> b[i] == 13 && b[i + 1] == 10 && b[i + 2] == 13 && b[i + 3] == 10
  {
    assert b[i..i + 4] == [b[i], b[i + 1], b[i + 2], b[i + 3]];
  }

  /** The event found in the buffer is the first LF LF event, or the first event at all. */
  lemma FoundFirst(s: seq<byte>, c: nat, m: nat, y: nat)
    requires c <= y <= m <= |s| && FindEventEnd(s[c..m]).Some?
    requires var lf := Find(s[c..m], LFLF, 0).Some?; y == c + FindEventEnd(s[c..m]).value + if lf then 2 else 4
    ensures SeparatorEndsAt(s, y)
    ensures if Find(s[c..m], LFLF, 0).Some? then FirstLf(s, c, y) else NoneBefore(s, c, y)
  {
    hide Find;
    var b := s[c..m];
    SeparatorInBuffer(s, c, m, y);
    forall z: nat | c <= z < y
      ensures c + 2 <= z ==> !LfEndsAt(s, z)
      ensures Find(b, LFLF, 0).None? && c + 4 <= z ==> !CrEndsAt(s, z)
    {
      SeparatorInBuffer(s, c, m, z);
    }
  }

  /** An event that is not valid: nothing safe lies beyond what was consumed. */
  lemma InvalidEventStops(s: seq<byte>, c: nat, m: nat, y: nat)
    requires c <= y <= m <= |s| && SafeAt(s, c) && FindEventEnd(s[c..m]).Some? && !Valid(s[..y])
    requires var lf := Find(s[c..m], LFLF, 0).Some?; y == c + FindEventEnd(s[c..m]).value + if lf then 2 else 4
    ensures NoFurther(s, c)
  {
    FoundFirst(s, c, m, y);
    var x := SafeEnd(s);
    if y <= x {
      assert LineStart(s, y);
      ValidDown(s, y, x);
    }
    hide Find, FindEventEnd, Valid, SafeFrom, HasAt;
    if Find(s[c..m], LFLF, 0).Some? { assert FirstLf(s, c, y) && x < y; } else { BreaksToSafeEnd(s, c, y); }
  }

  lemma ConsumedIsSafe(s: seq<byte>, c: nat, acc: Gathered, parse: Parser)
    requires c <= |s|
    ensures Consumed(s[..c], acc, parse) <==> SafeAt(s, c) && UpTo(s, c, parse) == Fine(acc)
  {
    hide Valid, Payloads, AbsorbAll;
    SamePrefix(s, s[..c], c);
    if c > 0 { assert s[..c][c - 1] == s[c - 1]; }
  }

  /** One event in place: where it ends, and what the bytes up to there give. */
  lemma EventInPlace(s: seq<byte>, c: nat, m: nat, acc: Gathered, parse: Parser) returns (event: seq<byte>, y: nat)
    requires c <= m <= |s| && Consumed(s[..c], acc, parse) && FindEventEnd(s[c..m]).Some?
    ensures var lf := Find(s[c..m], LFLF, 0).Some?; y == c + FindEventEnd(s[c..m]).value + if lf then 2 else 4
    ensures c < y <= m && SeparatorEndsAt(s, y) && (Valid(s[..y]) <==> Valid(event))
    ensures UpTo(s, y, parse) == AbsorbAll(Payloads(event), acc, parse)
    ensures var h := HandleEvent(event, acc, parse);
            Drain(s[c..m], acc, parse) == if h.Bad? then Stopped(h.acc) else Drain(s[y..m], h.acc, parse)
  {
    hide Valid, Payloads, AbsorbAll, Drain, Find, FindEventEnd, HandleEvent;
    var sep, rest;
    event, sep, rest := DrainStep(s[c..m], acc, parse);
    y := c + |event| + |sep|;
    InPlace(s, c, m, event, sep, rest);
    FoundFirst(s, c, m, y);
    EventPayloads(s[..c], event, sep, []);
    EventValid(s[..c], event, sep, []);
    AbsorbAllConcat(Payloads(s[..c]), Payloads(event), NOTHING, parse);
  }

  lemma InPlace(s: seq<byte>, c: nat, m: nat, event: seq<byte>, sep: seq<byte>, rest: seq<byte>)
    requires c <= m <= |s| && s[c..m] == event + sep + rest
    ensures var y := c + |event| + |sep|; y <= m && s[..y] == s[..c] + event + sep && rest == s[y..m]
  {
    var y := c + |event| + |sep|;
    assert s[..y] == s[..c] + s[c..m][..|event| + |sep|];
    assert s[y..m] == s[c..m][|event| + |sep|..];
  }

  /** Draining goes on to a later safe place, or stops where it may. */
  lemma {:induction false} DrainReaches(s: seq<byte>, c: nat, m: nat, acc: Gathered, parse: Parser) returns (c': nat)
    requires c <= m <= |s| && Consumed(s[..c], acc, parse)
    ensures var d := Drain(s[c..m], acc, parse);
            if d.Going?
            then c <= c' <= m && d.buffer == s[c'..m] && Consumed(s[..c'], d.acc, parse) && NoSeparator(d.buffer)
            else StopsAt(s, c', parse) && d.acc == UpTo(s, c', parse).acc
    decreases m - c
  {
    hide *;
    if FindEventEnd(s[c..m]).None? {
      c' := c;
      NoEventEnd(s[c..m], acc, parse);
    } else {
      var event, y := EventInPlace(s, c, m, acc, parse);
      var h := HandleEvent(event, acc, parse);
      HandledEvent(s, c, m, y, event, acc, parse);
      if h.Fine? {
        c' := DrainReaches(s, y, m, h.acc, parse);
      } else {
        c' := if Valid(event) then y else c;
      }
    }
  }

  lemma HandledEvent(s: seq<byte>, c: nat, m: nat, y: nat, event: seq<byte>, acc: Gathered, parse: Parser)
    requires c < y <= m <= |s| && Consumed(s[..c], acc, parse) && FindEventEnd(s[c..m]).Some?
    requires var lf := Find(s[c..m], LFLF, 0).Some?; y == c + FindEventEnd(s[c..m]).value + if lf then 2 else 4
    requires SeparatorEndsAt(s, y) && (Valid(s[..y]) <==> Valid(event))
    requires UpTo(s, y, parse) == AbsorbAll(Payloads(event), acc, parse)
    ensures var h := HandleEvent(event, acc, parse);
            if h.Fine? then Consumed(s[..y], h.acc, parse)
            else if Valid(event) then StopsAt(s, y, parse) && UpTo(s, y, parse).acc == h.acc
            else StopsAt(s, c, parse) && UpTo(s, c, parse).acc == h.acc
  {
    hide Payloads, AbsorbAll, Find, FindEventEnd, Valid, NoFurther, Consumed, SeparatorEndsAt, UpTo;
    var h := HandleEvent(event, acc, parse);
    ConsumedIsSafe(s, c, acc, parse);
    if h.Fine? { ConsumedIsSafe(s, y, h.acc, parse); }
    if !Valid(event) { InvalidEventStops(s, c, m, y); }
  }

  /** The bytes of the chunks from here on. */
  lemma {:induction false} DecodeReaches(s: seq<byte>, c: nat, m: nat, chunks: seq<seq<byte>>, acc: Gathered,
                                         parse: Parser)
    returns (c': nat)
    requires c <= m <= |s| && s[m..] == Concat(chunks)
    requires Consumed(s[..c], acc, parse) && NoSeparator(s[c..m])
    ensures StopsAt(s, c', parse) && Decode(chunks, s[c..m], acc, parse).acc == UpTo(s, c', parse).acc
    decreases |chunks|
  {
    hide Consumed, Drain, StopsAt, UpTo, NoSeparator;
    if chunks == [] {
      c' := c;
      assert m == |s| && s[c..m] == s[c..];
      EndReached(s, c, acc, parse);
    } else {
      var k := m + |chunks[0]|;
      assert s[m..] == chunks[0] + Concat(chunks[1..]);
      NextChunk(s, c, m, chunks[0], Concat(chunks[1..]));
      DecodeStep(chunks, s[c..m], acc, parse);
      c' := DrainReaches(s, c, k, acc, parse);
      var d := Drain(s[c..k], acc, parse);
      if d.Going? { c' := DecodeReaches(s, c', k, chunks[1..], d.acc, parse); }
    }
  }

  lemma NextChunk(s: seq<byte>, c: nat, m: nat, chunk: seq<byte>, rest: seq<byte>)
    requires c <= m <= |s| && s[m..] == chunk + rest
    ensures var k := m + |chunk|; k <= |s| && s[c..k] == s[c..m] + chunk && s[k..] == rest
  {
    var k := m + |chunk|;
    assert s[m..k] == s[m..][..|chunk|] && s[k..] == s[m..][|chunk|..];
  }

  lemma EndReached(s: seq<byte>, c: nat, acc: Gathered, parse: Parser)
    requires c <= |s| && Consumed(s[..c], acc, parse) && NoSeparator(s[c..])
    ensures StopsAt(s, c, parse) && UpTo(s, c, parse).acc == acc
  {
    ConsumedIsSafe(s, c, acc, parse);
    hide Consumed, Payloads, AbsorbAll, Valid;
    forall z: nat | c <= z <= |s| ensures !(c + 2 <= z && LfEndsAt(s, z)) && !(c + 4 <= z && CrEndsAt(s, z)) {
      assert s[c..] == s[c..|s|];
      SeparatorInBuffer(s, c, |s|, z);
    }
    BreaksToSafeEnd(s, c, |s| + 1);
  }

  // ----- steady streams

  /** On a steady stream stopping anywhere gives what the bytes up to the last safe place give. */
  lemma SteadyStop(s: seq<byte>, c: nat, parse: Parser)
    requires Steady(s) && StopsAt(s, c, parse)
    ensures UpTo(s, c, parse).acc == UpTo(s, SafeEnd(s), parse).acc
  {
    hide Payloads, AbsorbAll, Valid, SafeFrom, LfFrom;
    var x := SafeEnd(s);
    SafeIsLineStart(s, c);
    PayloadsSplit(s, c, x);
    AbsorbAllConcat(Payloads(s[..c]), Payloads(s[c..x]), NOTHING, parse);
    if UpTo(s, c, parse).Fine? {
      if BreaksOnly(s, c, x) {
        PayloadsOverBreaks(s, c, x);
      } else {
        SteadyGap(s, c);
      }
    }
  }

  lemma SteadyGap(s: seq<byte>, c: nat)
    requires Steady(s) && c <= SafeEnd(s) && LineStart(s, c)
    requires exists y: nat :: FirstLf(s, c, y) && SafeEnd(s) < y
    ensures Payloads(s[..SafeEnd(s)]) == Payloads(s[..c])
  {
    hide Payloads, Valid, SafeFrom;
    var x := SafeEnd(s);
    var last := LfFrom(s, x);
    var y: nat :| FirstLf(s, c, y) && x < y;
    PayloadsSplit(s, last, x);
    if last <= c {
      PayloadsMiddle(s, last, c, x);
      PayloadsSplit(s, c, x);
    } else {
      assert last == c + 1 && BreaksOnly(s, c, last);
      PayloadsOverBreaks(s, c, last);
    }
  }

  lemma DecodeStops(chunks: seq<seq<byte>>, parse: Parser) returns (c: nat)
    ensures var s := Concat(chunks);
            StopsAt(s, c, parse) && Decode(chunks, [], NOTHING, parse).acc == UpTo(s, c, parse).acc
  {
    hide *;
    var s := Concat(chunks);
    NothingConsumed(parse);
    assert s[..0] == [] && s[0..0] == [] && s[0..] == s;
    c := DecodeReaches(s, 0, 0, chunks, NOTHING, parse);
  }

  /** The first payload that does not parse, or their number, and what is gathered up to there. */
  lemma {:induction false} AbsorbedPrefix(payloads: seq<seq<byte>>, parse: Parser) returns (n: nat)
    ensures n <= |payloads| && AllParse(payloads[..n], parse)
    ensures AbsorbAll(payloads, NOTHING, parse).acc == AbsorbChunks(NOTHING, Parsed(payloads[..n], parse))
    ensures if AbsorbAll(payloads, NOTHING, parse).Fine? then n == |payloads|
            else n < |payloads| && parse(payloads[n]).None?
  {
    n := 0;
    if payloads != [] {
      var before := payloads[..|payloads| - 1];
      n := AbsorbedPrefix(before, parse);
      hide Absorb, AbsorbChunks, Parsed;
      assert payloads[..n] == before[..n] && payloads == before + [payloads[|payloads| - 1]];
      AbsorbAllConcat(before, [payloads[|payloads| - 1]], NOTHING, parse);
      if n == |before| && parse(payloads[n]).Some? {
        n := |payloads|;
        assert payloads[..n] == payloads;
        AbsorbAllIsFold(payloads, parse);
      }
    }
  }

  /** What was gathered comes from the first `n` payloads, all of which parse. */
  ghost predicate FromFirst(payloads: seq<seq<byte>>, n: nat, acc: Gathered, parse: Parser) {
    n <= |payloads| && AllParse(payloads[..n], parse) && AddsUp(acc, Parsed(payloads[..n], parse))
  }

  /** The next payload does not parse, or those of the first `c` bytes have all been gathered and
      there is no further safe place to go to. */
  ghost predicate StopsAfter(s: seq<byte>, n: nat, c: nat, parse: Parser) {
    || (n < |Payloads(s)| && parse(Payloads(s)[n]).None?)
    || (c <= |s| && n == |Payloads(s[..c])| && NoFurther(s, c))
  }

  /** MAIN: whatever the outcome, the text events sent are the contents of the first payloads of the
      stream, in order, up to one that does not parse or up to a place from which there is no further
      safe place to go to. */
  lemma SentIsPrefix(chunks: seq<seq<byte>>, parse: Parser) returns (n: nat, c: nat)
    ensures FromFirst(Payloads(Concat(chunks)), n, Decode(chunks, [], NOTHING, parse).acc, parse)
    ensures StopsAfter(Concat(chunks), n, c, parse)
  {
    hide *;
    c := DecodeStops(chunks, parse);
    n := PrefixGathered(Concat(chunks), c, parse);
  }

  lemma PrefixGathered(s: seq<byte>, c: nat, parse: Parser) returns (n: nat)
    requires StopsAt(s, c, parse)
    ensures FromFirst(Payloads(s), n, UpTo(s, c, parse).acc, parse) && StopsAfter(s, n, c, parse)
  {
    hide NoFurther, Payloads, AbsorbAll, AbsorbChunks, AddsUp, Parsed, SafeAt;
    SafeIsLineStart(s, c);
    PayloadsSplit(s, c, |s|);
    assert s[..|s|] == s;
    n := AbsorbedPrefix(Payloads(s[..c]), parse);
    FirstOfBoth(Payloads(s[..c]), Payloads(s[c..]), n, UpTo(s, c, parse).acc, parse);
  }

  lemma FirstOfBoth(a: seq<seq<byte>>, b: seq<seq<byte>>, n: nat, acc: Gathered, parse: Parser)
    requires n <= |a| && AllParse(a[..n], parse) && acc == AbsorbChunks(NOTHING, Parsed(a[..n], parse))
    ensures FromFirst(a + b, n, acc, parse)
  {
    hide AbsorbChunks, AddsUp, Parsed;
    assert (a + b)[..n] == a[..n];
    ChunksAddUp(Parsed(a[..n], parse));
  }

  /** MAIN: on a steady stream nothing depends on the chunks: neither success, nor the result, nor
      what was sent before a failure. */
  lemma SteadyStreamsDecodeAlike(chunks: seq<seq<byte>>, other: seq<seq<byte>>, parse: Parser)
    requires Concat(chunks) == Concat(other) && Steady(Concat(chunks))
    ensures Decode(chunks, [], NOTHING, parse) == Decode(other, [], NOTHING, parse)
  {
    hide *;
    ChunkingDoesNotMatter(chunks, parse);
    ChunkingDoesNotMatter(other, parse);
    var c := DecodeStops(chunks, parse);
    var d := DecodeStops(other, parse);
    SteadyStop(Concat(chunks), c, parse);
    SteadyStop(Concat(chunks), d, parse);
  }

  // ----- valid streams are steady

  /** MAIN: in particular nothing depends on the chunks of a valid stream. */
  lemma ValidIsSteady(s: seq<byte>)
    requires Valid(s)
    ensures Steady(s)
  {
    forall z: nat | z <= |s| && LfEndsAt(s, z) ensures z <= SafeEnd(s) {
      assert s[..|s|] == s;
      ValidDown(s, z, |s|);
      assert SafeAt(s, z);
    }
  }

  // ----- other streams are not

  lemma {:induction false} ChoicesGrow(acc: Gathered, choices: seq<Choice>)
    ensures acc.deltas <= AbsorbChoices(acc, choices).deltas
    decreases |choices|
  {
    if choices != [] { ChoicesGrow(AbsorbChoice(acc, choices[0]), choices[1..]); }
  }

  lemma AbsorbGrows(acc: Gathered, chunk: StreamChunk)
    ensures acc.deltas <= Absorb(acc, chunk).deltas
  {
    var u, v := acc.usage, chunk.usage;
    ChoicesGrow(acc.(usage := Usage(u.prompt + v.prompt, u.completion + v.completion, u.total + v.total)),
                chunk.choices);
  }

  lemma {:induction false} AbsorbAllGrows(payloads: seq<seq<byte>>, acc: Gathered, parse: Parser)
    ensures acc.deltas <= AbsorbAll(payloads, acc, parse).acc.deltas
  {
    if payloads != [] && parse(payloads[0]).Some? {
      var next := Absorb(acc, parse(payloads[0]).value);
      AbsorbGrows(acc, parse(payloads[0]).value);
      AbsorbAllGrows(payloads[1..], next, parse);
    }
  }

  lemma {:induction false} DrainGrows(buffer: seq<byte>, acc: Gathered, parse: Parser)
    ensures acc.deltas <= Drain(buffer, acc, parse).acc.deltas
    decreases |buffer|
  {
    hide Drain, FindEventEnd, Payloads, AbsorbAll, Valid;
    if FindEventEnd(buffer).None? {
      NoEventEnd(buffer, acc, parse);
    } else {
      var event, sep, rest := DrainStep(buffer, acc, parse);
      AbsorbAllGrows(Payloads(event), acc, parse);
      DrainGrows(rest, HandleEvent(event, acc, parse).acc, parse);
    }
  }

  lemma {:induction false} DecodeGrows(chunks: seq<seq<byte>>, buffer: seq<byte>, acc: Gathered, parse: Parser)
    ensures acc.deltas <= Decode(chunks, buffer, acc, parse).acc.deltas
    decreases |chunks|
  {
    if chunks != [] {
      hide Drain;
      DrainGrows(buffer + chunks[0], acc, parse);
      var d := Drain(buffer + chunks[0], acc, parse);
      DecodeStep(chunks, buffer, acc, parse);
      if d.Going? { DecodeGrows(chunks[1..], d.buffer, d.acc, parse); }
    }
  }

  lemma UpToGrows(s: seq<byte>, a: nat, b: nat, parse: Parser)
    requires a <= b <= |s| && LineStart(s, a)
    ensures UpTo(s, a, parse).acc.deltas <= UpTo(s, b, parse).acc.deltas
    ensures UpTo(s, b, parse).Fine? ==> UpTo(s, a, parse).Fine?
  {
    hide Payloads, AbsorbAll;
    PayloadsSplit(s, a, b);
    AbsorbAllConcat(Payloads(s[..a]), Payloads(s[a..b]), NOTHING, parse);
    if UpTo(s, a, parse).Fine? { AbsorbAllGrows(Payloads(s[a..b]), UpTo(s, a, parse).acc, parse); }
  }

  /** The stream's text is at risk: an LF LF ends after the last safe place, all payloads up to that
      place parse, and those after the last LF LF before it yield text. */
  ghost predicate TextAtRisk(s: seq<byte>, parse: Parser) {
    var x := SafeEnd(s);
    && (exists y: nat :: x < y <= |s| && LfEndsAt(s, y))
    && UpTo(s, x, parse).Fine?
    && UpTo(s, LfFrom(s, x), parse).acc.deltas != UpTo(s, x, parse).acc.deltas
  }

  /** In one piece, only LF LF cuts events, and the first one behind the last safe place fails. */
  lemma {:induction false} WholeStops(s: seq<byte>, c: nat, acc: Gathered, parse: Parser) returns (c': nat)
    requires TextAtRisk(s, parse) && c <= LfFrom(s, SafeEnd(s))
    requires (c == 0 || LfEndsAt(s, c)) && Consumed(s[..c], acc, parse)
    ensures c' <= LfFrom(s, SafeEnd(s)) && LineStart(s, c')
    ensures Drain(s[c..|s|], acc, parse) == Stopped(UpTo(s, c', parse).acc)
    decreases |s| - c
  {
    var x, m := SafeEnd(s), |s|;
    LfAhead(s, c, parse);
    var event, y := EventInPlace(s, c, m, acc, parse);
    HandledEvent(s, c, m, y, event, acc, parse);
    FoundFirst(s, c, m, y);
    hide SafeFrom, LfFrom, Find, FindEventEnd, Valid, Payloads, AbsorbAll, Drain, NoFurther, StopsAt, UpTo, Consumed,
         FirstLf;
    if Valid(event) {
      StaysBelow(s, c, y, parse);
      c' := WholeStops(s, y, HandleEvent(event, acc, parse).acc, parse);
    } else {
      c' := c;
    }
  }

  lemma LfAhead(s: seq<byte>, c: nat, parse: Parser)
    requires TextAtRisk(s, parse) && c <= LfFrom(s, SafeEnd(s)) && (c == 0 || LfEndsAt(s, c))
    ensures Find(s[c..|s|], LFLF, 0).Some?
  {
    hide UpTo, SafeFrom, Find;
    var x := SafeEnd(s);
    assert LfFrom(s, x) != x;
    var y: nat :| x < y <= |s| && LfEndsAt(s, y);
    SeparatorInBuffer(s, c, |s|, y);
    assert HasAt(s[c..|s|], LFLF, y - c - 2);
  }

  /** A valid event that ends in LF LF stays within what parses. */
  lemma StaysBelow(s: seq<byte>, c: nat, y: nat, parse: Parser)
    requires TextAtRisk(s, parse) && y <= |s| && SafeAt(s, y) && LfEndsAt(s, y)
    ensures y <= LfFrom(s, SafeEnd(s)) && UpTo(s, y, parse).Fine?
  {
    SafeIsLineStart(s, y);
    UpToGrows(s, y, SafeEnd(s), parse);
  }

  /** A safe prefix that parses is decoded without an error. */
  lemma SafePrefixDecodes(s: seq<byte>, x: nat, parse: Parser)
    requires x <= |s| && SafeAt(s, x) && UpTo(s, x, parse).Fine?
    ensures Decode([s[..x]], [], NOTHING, parse) == Fine(UpTo(s, x, parse).acc)
  {
    var t := s[..x];
    ChunkingDoesNotMatter([t], parse);
    assert [t][1..] == [] && Concat([]) == [] && t + [] == t;
    assert Concat([t]) == t + Concat([t][1..]);
    SamePrefix(s, t, x);
    hide Decode, Payloads, AbsorbAll, Valid;
    assert TailStart(t) == x && t[x..] == [];
  }

  /** Cut at the last safe place, everything up to it is sent. */
  lemma SplitSends(s: seq<byte>, x: nat, parse: Parser)
    requires x <= |s| && SafeAt(s, x) && UpTo(s, x, parse).Fine?
    ensures UpTo(s, x, parse).acc.deltas <= Decode([s[..x], s[x..]], [], NOTHING, parse).acc.deltas
  {
    var t, rest := s[..x], s[x..];
    SafePrefixDecodes(s, x, parse);
    DecodeStep([t], [], NOTHING, parse);
    DecodeStep([t, rest], [], NOTHING, parse);
    assert [t][1..] == [] && [t, rest][1..] == [rest];
    hide Drain, UpTo, SafeAt;
    var d := Drain([] + t, NOTHING, parse);
    DecodeGrows([rest], d.buffer, d.acc, parse);
  }

  lemma WholeSendsLess(s: seq<byte>, parse: Parser)
    requires TextAtRisk(s, parse)
    ensures |Decode([s], [], NOTHING, parse).acc.deltas| < |UpTo(s, SafeEnd(s), parse).acc.deltas|
  {
    hide *;
    NothingConsumed(parse);
    assert s[..0] == [] && s[0..|s|] == s && [] + s == s;
    var c := WholeStops(s, 0, NOTHING, parse);
    DecodeStep([s], [], NOTHING, parse);
    RiskGrows(s, c, parse);
  }

  lemma RiskGrows(s: seq<byte>, c: nat, parse: Parser)
    requires TextAtRisk(s, parse) && c <= LfFrom(s, SafeEnd(s)) && LineStart(s, c)
    ensures |UpTo(s, c, parse).acc.deltas| < |UpTo(s, SafeEnd(s), parse).acc.deltas|
  {
    hide UpTo, SafeFrom;
    var x := SafeEnd(s);
    var last := LfFrom(s, x);
    UpToGrows(s, c, last, parse);
    UpToGrows(s, last, x, parse);
  }

  lemma TwoPieces(s: seq<byte>, x: nat)
    requires x <= |s|
    ensures Concat([s]) == s && Concat([s[..x], s[x..]]) == s
  {
    assert [s][1..] == [] && [s[..x], s[x..]][1..] == [s[x..]] && [s[x..]][1..] == [];
    assert Concat([]) == [] && Concat([s[x..]]) == s[x..] + [];
  }

  /** MAIN: whenever text is at risk, sending the stream in one piece and cutting it at its last safe
      place show the caller different text before the failure. */
  lemma TextAtRiskShows(s: seq<byte>, parse: Parser)
    requires TextAtRisk(s, parse)
    ensures var whole, cut := [s], [s[..SafeEnd(s)], s[SafeEnd(s)..]];
            && Concat(whole) == s && Concat(cut) == s
            && Decode(whole, [], NOTHING, parse).acc.deltas != Decode(cut, [], NOTHING, parse).acc.deltas
  {
    hide Decode, UpTo, SafeFrom, Concat;
    TwoPieces(s, SafeEnd(s));
    WholeSendsLess(s, parse);
    SplitSends(s, SafeEnd(s), parse);
  }

  /** A parser that takes every payload for the text "x". */
  function SaysX(payload: seq<byte>): Option<StreamChunk> {
    Some(StreamChunk([Choice(Some("x"), [])], Usage(0, 0, 0)))
  }

  lemma {:induction false} SaysXCounts(payloads: seq<seq<byte>>, acc: Gathered)
    ensures AbsorbAll(payloads, acc, SaysX).Fine?
    ensures |AbsorbAll(payloads, acc, SaysX).acc.deltas| == |acc.deltas| + |payloads|
  {
    if payloads != [] {
      var chunk := SaysX(payloads[0]).value;
      assert chunk.choices[1..] == [];
      SaysXCounts(payloads[1..], Absorb(acc, chunk));
    }
  }

  lemma UnsteadyIsAtRisk(s: seq<byte>)
    requires !Steady(s)
    ensures TextAtRisk(s, SaysX)
  {
    hide Payloads, AbsorbAll, Valid, SafeFrom;
    var x := SafeEnd(s);
    var last := LfFrom(s, x);
    PayloadsSplit(s, last, x);
    SaysXCounts(Payloads(s[..x]), NOTHING);
    SaysXCounts(Payloads(s[..last]), NOTHING);
  }

  /** All ways of cutting the stream decode alike, with every parser. */
  ghost predicate DecodesAlike(s: seq<byte>) {
    forall chunks, other, parse :: Concat(chunks) == s && Concat(other) == s ==>
      Decode(chunks, [], NOTHING, parse) == Decode(other, [], NOTHING, parse)
  }

  lemma SteadyDecodesAlike(s: seq<byte>)
    requires Steady(s)
    ensures DecodesAlike(s)
  {
    hide Decode, Steady, Concat;
    forall chunks, other, parse | Concat(chunks) == s && Concat(other) == s
      ensures Decode(chunks, [], NOTHING, parse) == Decode(other, [], NOTHING, parse)
    {
      SteadyStreamsDecodeAlike(chunks, other, parse);
    }
  }

  lemma NotAlike(s: seq<byte>, chunks: seq<seq<byte>>, other: seq<seq<byte>>, parse: Parser)
    requires Concat(chunks) == s && Concat(other) == s
    requires Decode(chunks, [], NOTHING, parse) != Decode(other, [], NOTHING, parse)
    ensures !DecodesAlike(s)
  {
    hide Decode, Concat;
  }

  /** MAIN: the exact condition: decoding does not depend on the chunks if and only if the stream is
      steady. */
  lemma ChunksShowExactly(s: seq<byte>)
    ensures DecodesAlike(s) <==> Steady(s)
  {
    hide *;
    if Steady(s) {
      SteadyDecodesAlike(s);
    } else {
      UnsteadyIsAtRisk(s);
      TextAtRiskShows(s, SaysX);
      NotAlike(s, [s], [s[..SafeEnd(s)], s[SafeEnd(s)..]], SaysX);
    }
  }

  /** One event with one ASCII line of data, ended by CR LF CR LF, and then a byte that is not UTF-8
      and LF LF: for every payload whose parse yields text the chunks show. */
  lemma OneLineShows(payload: seq<byte>, parse: Parser)
    requires forall i :: 0 <= i < |payload| ==> payload[i] < 0x80 && !IsBreak(payload[i])
    requires LinePayload(DATA + payload) == [payload] && parse(payload).Some?
    requires Absorb(NOTHING, parse(payload).value).deltas != []
    ensures TextAtRisk(DATA + payload + CRLFCRLF + [255, 10, 10], parse)
  {
    hide UpTo, SafeFrom, LfFrom, Absorb, LinePayload;
    var line := DATA + payload;
    var s := line + CRLFCRLF + [255, 10, 10];
    AsciiLine(payload);
    OneLinePlaces(line, s);
    OneLinePayloads(payload, line, s, parse);
    LastLf(line, s);
  }

  lemma AsciiLine(payload: seq<byte>)
    requires forall i :: 0 <= i < |payload| ==> payload[i] < 0x80 && !IsBreak(payload[i])
    ensures forall i :: 0 <= i < |DATA + payload| ==> (DATA + payload)[i] < 0x80 && !IsBreak((DATA + payload)[i])
  {
  }

  lemma LastLf(line: seq<byte>, s: seq<byte>)
    requires s == line + CRLFCRLF + [255, 10, 10]
    ensures LfEndsAt(s, |s|) && |line| + 4 < |s|
  {
  }

  lemma OneLinePlaces(line: seq<byte>, s: seq<byte>)
    requires forall i :: 0 <= i < |line| ==> line[i] < 0x80 && !IsBreak(line[i])
    requires s == line + CRLFCRLF + [255, 10, 10]
    ensures SafeEnd(s) == |line| + 4 && LfFrom(s, |line| + 4) == 0
  {
    var x := |line| + 4;
    assert s[..x] == line + CRLFCRLF;
    ValidAscii(s[..x]);
    assert SafeAt(s, x);
    forall z: nat | x < z <= |s| ensures !SafeAt(s, z) {
      assert z < |s| ==> !SeparatorEndsAt(s, z);
      assert s[..x] + [255, 10, 10] == s && s[..|s|] == s;
      ValidPrefix(s[..x], [255, 10, 10]);
      assert CharLen([255, 10, 10]) == 0;
    }
    forall z: nat | 0 < z <= x ensures !LfEndsAt(s, z) {}
  }

  lemma OneLinePayloads(payload: seq<byte>, line: seq<byte>, s: seq<byte>, parse: Parser)
    requires forall i :: 0 <= i < |line| ==> !IsBreak(line[i])
    requires line == DATA + payload && LinePayload(line) == [payload] && parse(payload).Some?
    requires s == line + CRLFCRLF + [255, 10, 10]
    ensures UpTo(s, |line| + 4, parse) == Fine(Absorb(NOTHING, parse(payload).value))
    ensures UpTo(s, 0, parse) == Fine(NOTHING)
  {
    var x := |line| + 4;
    assert s[..x] == line + CRLFCRLF && s[..0] == [];
    PayloadsTrailing(line, CRLFCRLF);
    NoLineBreak(line);
    assert Payloads(line) == [] + LinePayload(line) == [payload];
    assert Payloads([]) == [] && [payload][1..] == [];
    assert AbsorbAll([], Absorb(NOTHING, parse(payload).value), parse) == Fine(Absorb(NOTHING, parse(payload).value));
  }

  lemma {:induction false} NoLineBreak(s: seq<byte>)
    requires LF !in s
    ensures ReadAll(Reader([], []), s) == Reader([], s)
  {
    hide Read;
    if s != [] {
      var n := |s| - 1;
      NoLineBreak(s[..n]);
      KeepsByte([], s[..n], s[n]);
      assert s == s[..n] + [s[n]];
    }
  }

  lemma KeepsByte(found: seq<seq<byte>>, line: seq<byte>, b: byte)
    requires b != LF
    ensures Read(Reader(found, line), b) == Reader(found, line + [b])
  {
  }
}
