/** The decoder for the model provider's server-sent events: a buffer fed chunk by chunk, from
    which complete events are cut at blank lines. */
module Sse {
  import opened Text
  import opened Utf8
  import opened SseLines
  import opened ToolCalls

  const LFLF: seq<byte> := [10, 10]
  const CRLFCRLF: seq<byte> := [13, 10, 13, 10]

  predicate HasAt(s: seq<byte>, sep: seq<byte>, i: nat) {
    i + |sep| <= |s| && s[i..i + |sep|] == sep
  }

  /** `windows(n).position(...)`: the first place at or after `from` where `sep` stands. */
  function Find(s: seq<byte>, sep: seq<byte>, from: nat): (r: Option<nat>)
    ensures r.Some? ==> from <= r.value && HasAt(s, sep, r.value)
    ensures forall j: nat :: from <= j && HasAt(s, sep, j) ==> r.Some? && r.value <= j
    decreases |s| - from
  {
    if from + |sep| > |s| then None
    else if HasAt(s, sep, from) then Some(from)
    else Find(s, sep, from + 1)
  }

  /** End of the next event: the first LF LF if there is one anywhere, else the first CRLF CRLF. */
  function FindEventEnd(buffer: seq<byte>): Option<nat> {
    match Find(buffer, LFLF, 0)
    case Some(i) => Some(i)
    case None => Find(buffer, CRLFCRLF, 0)
  }

  function DropSeparator(buffer: seq<byte>): seq<byte> {
    if CRLFCRLF <= buffer then buffer[4..] else if LFLF <= buffer then buffer[2..] else buffer
  }

  /** `u8::is_ascii_whitespace` on every byte. */
  predicate Blank(s: seq<byte>) {
    forall i :: 0 <= i < |s| ==> s[i] == 32 || s[i] == 9 || s[i] == 10 || s[i] == 12 || s[i] == 13
  }

  /** Whether handling went on or stopped with an error, and what had been gathered by then. */
  datatype Handled = Fine(acc: Gathered) | Bad(acc: Gathered)

  type Parser = seq<byte> -> Option<StreamChunk>

  /** Gathers payload after payload; the first one that does not parse is an error. */
  function AbsorbAll(payloads: seq<seq<byte>>, acc: Gathered, parse: Parser): Handled {
    if payloads == [] then Fine(acc)
    else match parse(payloads[0])
      case None => Bad(acc)
      case Some(chunk) => AbsorbAll(payloads[1..], Absorb(acc, chunk), parse)
  }

  function HandleEvent(event: seq<byte>, acc: Gathered, parse: Parser): Handled {
    if Valid(event) then AbsorbAll(Payloads(event), acc, parse) else Bad(acc)
  }

  datatype Drained = Going(buffer: seq<byte>, acc: Gathered) | Stopped(acc: Gathered)

  /** Handles every complete event in the buffer. */
  function Drain(buffer: seq<byte>, acc: Gathered, parse: Parser): Drained
    decreases |buffer|
  {
    match FindEventEnd(buffer)
    case None => Going(buffer, acc)
    case Some(end) =>
      match HandleEvent(buffer[..end], acc, parse)
      case Bad(acc') => Stopped(acc')
      case Fine(acc') => Drain(DropSeparator(buffer[end..]), acc', parse)
  }

  /** The whole decoding of a chunked stream, from a buffer left over by earlier chunks. */
  function Decode(chunks: seq<seq<byte>>, buffer: seq<byte>, acc: Gathered, parse: Parser): Handled {
    if chunks == [] then (if Blank(buffer) then Fine(acc) else Bad(acc))
    else match Drain(buffer + chunks[0], acc, parse)
      case Stopped(acc') => Bad(acc')
      case Going(buffer', acc') => Decode(chunks[1..], buffer', acc', parse)
  }

  // ----- the stream as a whole

  function Concat(chunks: seq<seq<byte>>): seq<byte> {
    if chunks == [] then [] else chunks[0] + Concat(chunks[1..])
  }

  /** A separator ends right before place `n`. */
  predicate SeparatorEndsAt(s: seq<byte>, n: nat)
    requires n <= |s|
  {
    || (n >= 2 && s[n - 2] == 10 && s[n - 1] == 10)
    || (n >= 4 && s[n - 4] == 13 && s[n - 3] == 10 && s[n - 2] == 13 && s[n - 1] == 10)
  }

  predicate EndsWithSeparator(s: seq<byte>) {
    SeparatorEndsAt(s, |s|)
  }

  /** Where the text after the last separator in the first `n` bytes begins. */
  function TailFrom(s: seq<byte>, n: nat): (t: nat)
    requires n <= |s|
    ensures t <= n
  {
    if n == 0 then 0 else if SeparatorEndsAt(s, n) then n else TailFrom(s, n - 1)
  }

  function TailStart(s: seq<byte>): (t: nat)
    ensures t <= |s|
  {
    TailFrom(s, |s|)
  }

  lemma {:induction false} TailFromIsLast(s: seq<byte>, n: nat, p: nat)
    requires p <= n <= |s|
    ensures var t := TailFrom(s, n); (t == 0 || SeparatorEndsAt(s, t)) && (SeparatorEndsAt(s, p) ==> p <= t)
  {
    hide SeparatorEndsAt;
    if n > 0 { TailFromIsLast(s, n - 1, if p < n then p else 0); }
  }

  /** What a stream means, chunks aside: nothing but blank space after the last separator, valid
      UTF-8 throughout, and every payload parses. */
  function Meaning(s: seq<byte>, parse: Parser): Option<Gathered> {
    if !Blank(s[TailStart(s)..]) || !Valid(s) then None
    else match AbsorbAll(Payloads(s), NOTHING, parse)
      case Fine(acc) => Some(acc)
      case Bad(_) => None
  }

  /** The bytes `c` have been consumed and gave `acc`. */
  ghost predicate Consumed(c: seq<byte>, acc: Gathered, parse: Parser) {
    && WholeLines(c) && Valid(c)
    && (c == [] || EndsWithSeparator(c))
    && AbsorbAll(Payloads(c), NOTHING, parse) == Fine(acc)
  }

  ghost predicate NoSeparator(s: seq<byte>) {
    forall i: nat :: !HasAt(s, LFLF, i) && !HasAt(s, CRLFCRLF, i)
  }

  lemma {:induction false} AbsorbAllConcat(p: seq<seq<byte>>, q: seq<seq<byte>>, acc: Gathered, parse: Parser)
    ensures var h := AbsorbAll(p, acc, parse);
            AbsorbAll(p + q, acc, parse) == if h.Fine? then AbsorbAll(q, h.acc, parse) else h
  {
    if p == [] {
      assert p + q == q;
    } else if parse(p[0]).Some? {
      AbsorbAllConcat(p[1..], q, Absorb(acc, parse(p[0]).value), parse);
      assert (p + q)[1..] == p[1..] + q;
    }
  }

  /** An event and its separator after consumed bytes: same payloads as read on their own. */
  lemma EventPayloads(c: seq<byte>, event: seq<byte>, sep: seq<byte>, rest: seq<byte>)
    requires WholeLines(c) && (sep == LFLF || sep == CRLFCRLF)
    ensures Payloads(c + event + sep) == Payloads(c) + Payloads(event)
    ensures Payloads(c + event + sep + rest) == Payloads(c) + Payloads(event) + Payloads(rest)
  {
    PayloadsConcat(c, event);
    PayloadsTrailing(c + event, sep);
    PayloadsConcat(c + event + sep, rest);
  }

  lemma EventValid(c: seq<byte>, event: seq<byte>, sep: seq<byte>, rest: seq<byte>)
    requires Valid(c) && (sep == LFLF || sep == CRLFCRLF)
    ensures Valid(c + event + sep) <==> Valid(event)
    ensures Valid(c + event + sep + rest) ==> Valid(event)
  {
    hide Valid;
    ValidPrefix(c, event);
    ValidSplit(c + event, sep);
    ValidAscii(sep);
    ValidSplit(c + event, sep + rest);
    assert c + event + sep + rest == (c + event) + (sep + rest);
  }

  /** The next event of a buffer, its separator and what follows. */
  lemma CutEvent(buffer: seq<byte>) returns (event: seq<byte>, sep: seq<byte>, rest: seq<byte>)
    requires FindEventEnd(buffer).Some?
    ensures event == buffer[..FindEventEnd(buffer).value]
    ensures rest == DropSeparator(buffer[FindEventEnd(buffer).value..])
    ensures buffer == event + sep + rest && sep == if Find(buffer, LFLF, 0).Some? then LFLF else CRLFCRLF
  {
    var end := FindEventEnd(buffer).value;
    event, rest := buffer[..end], DropSeparator(buffer[end..]);
    var tail := buffer[end..];
    sep := if CRLFCRLF <= tail then CRLFCRLF else LFLF;
    if Find(buffer, LFLF, 0).Some? {
      assert buffer[end..end + 2] == LFLF;
      assert tail[..2] == LFLF && tail[0] == tail[..2][0] == 10;
    } else {
      assert buffer[end..end + 4] == CRLFCRLF;
      assert tail[..4] == CRLFCRLF;
    }
    assert tail == sep + rest && buffer == event + tail;
  }

  lemma DrainStep(buffer: seq<byte>, acc: Gathered, parse: Parser)
    returns (event: seq<byte>, sep: seq<byte>, rest: seq<byte>)
    requires FindEventEnd(buffer).Some?
    ensures buffer == event + sep + rest && |rest| < |buffer| && |event| == FindEventEnd(buffer).value
    ensures sep == if Find(buffer, LFLF, 0).Some? then LFLF else CRLFCRLF
    ensures var h := HandleEvent(event, acc, parse);
            Drain(buffer, acc, parse) == if h.Bad? then Stopped(h.acc) else Drain(rest, h.acc, parse)
  {
    event, sep, rest := CutEvent(buffer);
  }

  lemma NoEventEnd(buffer: seq<byte>, acc: Gathered, parse: Parser)
    requires FindEventEnd(buffer).None?
    ensures NoSeparator(buffer) && Drain(buffer, acc, parse) == Going(buffer, acc)
  {
  }

  lemma {:induction false} ConsumeEvent(c: seq<byte>, event: seq<byte>, sep: seq<byte>, acc: Gathered, parse: Parser)
    requires Consumed(c, acc, parse) && (sep == LFLF || sep == CRLFCRLF)
    requires HandleEvent(event, acc, parse).Fine?
    ensures Consumed(c + event + sep, HandleEvent(event, acc, parse).acc, parse)
  {
    hide Valid, Payloads, AbsorbAll;
    var d := c + event + sep;
    EventPayloads(c, event, sep, []);
    EventValid(c, event, sep, []);
    AbsorbAllConcat(Payloads(c), Payloads(event), NOTHING, parse);
    assert d[|d| - |sep|..] == sep && d[|d| - 1] == sep[|sep| - 1];
  }

  lemma BadEvent(c: seq<byte>, event: seq<byte>, sep: seq<byte>, acc: Gathered, rest: seq<byte>, parse: Parser)
    requires Consumed(c, acc, parse) && (sep == LFLF || sep == CRLFCRLF)
    requires HandleEvent(event, acc, parse).Bad?
    ensures Meaning(c + event + sep + rest, parse) == None
  {
    hide Valid, Payloads, AbsorbAll, Blank, TailStart;
    EventValid(c, event, sep, rest);
    if Valid(event) {
      EventPayloads(c, event, sep, rest);
      AbsorbAllConcat(Payloads(c), Payloads(event), NOTHING, parse);
      AbsorbAllConcat(Payloads(c) + Payloads(event), Payloads(rest), NOTHING, parse);
    }
  }

  lemma BadEventForGood(c: seq<byte>, event: seq<byte>, sep: seq<byte>, acc: Gathered, rest: seq<byte>, parse: Parser)
    requires Consumed(c, acc, parse) && (sep == LFLF || sep == CRLFCRLF)
    requires HandleEvent(event, acc, parse).Bad?
    ensures forall t :: Meaning(c + event + sep + rest + t, parse) == None
  {
    forall t ensures Meaning(c + event + sep + rest + t, parse) == None {
      BadEvent(c, event, sep, acc, rest + t, parse);
      assert c + event + sep + rest + t == c + event + sep + (rest + t);
    }
  }

  /** Draining moves whole events from the buffer to the consumed bytes, or stops on a stream
      that means nothing however it goes on. */
  lemma {:induction false} DrainCorrect(c: seq<byte>, buffer: seq<byte>, acc: Gathered, parse: Parser)
    returns (c': seq<byte>)
    requires Consumed(c, acc, parse)
    ensures var d := Drain(buffer, acc, parse);
            d.Going? ==> c + buffer == c' + d.buffer && Consumed(c', d.acc, parse) && NoSeparator(d.buffer)
    ensures Drain(buffer, acc, parse).Stopped? ==> forall t :: Meaning(c + buffer + t, parse) == None
    decreases |buffer|
  {
    hide *;
    c' := c;
    if FindEventEnd(buffer).None? {
      NoEventEnd(buffer, acc, parse);
    } else {
      var event, sep, rest := DrainStep(buffer, acc, parse);
      var next := HandleEvent(event, acc, parse);
      assert c + buffer == c + event + sep + rest;
      if next.Fine? {
        ConsumeEvent(c, event, sep, acc, parse);
        c' := DrainCorrect(c + event + sep, rest, next.acc, parse);
      } else {
        BadEventForGood(c, event, sep, acc, rest, parse);
      }
    }
  }

  predicate IsBreak(b: byte) {
    b == LF || b == CR
  }

  /** A separator that reaches past `n` without lying past it puts only line breaks there. */
  lemma LastSeparator(u: seq<byte>, n: nat)
    requires EndsWithSeparator(u) && n <= |u| && NoSeparator(u[n..])
    ensures forall i :: n <= i < |u| ==> IsBreak(u[i])
  {
    var sep := if |u| >= 2 && u[|u| - 2..] == LFLF then LFLF else CRLFCRLF;
    var k := |u| - |sep|;
    assert u[k..] == sep;
    if k >= n {
      assert u[n..][k - n..k - n + |sep|] == u[k..];
      assert HasAt(u[n..], sep, k - n);
    }
    forall i | n <= i < |u| ensures IsBreak(u[i]) {
      assert u[i] == u[k..][i - k];
    }
  }

  lemma NoSeparatorPrefix(s: seq<byte>, n: nat)
    requires NoSeparator(s) && n <= |s|
    ensures NoSeparator(s[..n])
  {
    forall i: nat ensures !HasAt(s[..n], LFLF, i) && !HasAt(s[..n], CRLFCRLF, i) {
      assert i + 2 <= n ==> s[..n][i..i + 2] == s[i..i + 2];
      assert i + 4 <= n ==> s[..n][i..i + 4] == s[i..i + 4];
      assert !HasAt(s, LFLF, i) && !HasAt(s, CRLFCRLF, i);
    }
  }

  lemma BlankAfterBreaks(s: seq<byte>, m: nat)
    requires m <= |s| && forall i :: 0 <= i < m ==> IsBreak(s[i])
    ensures Blank(s) <==> Blank(s[m..])
  {
    assert forall i :: m <= i < |s| ==> s[i] == s[m..][i - m];
  }

  lemma SamePrefix(s: seq<byte>, u: seq<byte>, n: nat)
    requires n == |u| && u <= s
    ensures SeparatorEndsAt(s, n) <==> EndsWithSeparator(u)
  {
  }

  /** What is left after the consumed bytes is blank exactly when the stream's tail is. */
  lemma TailBlank(c: seq<byte>, left: seq<byte>)
    requires (c == [] || EndsWithSeparator(c)) && NoSeparator(left)
    ensures Blank(left) <==> Blank((c + left)[TailStart(c + left)..])
  {
    hide SeparatorEndsAt, NoSeparator, TailFrom;
    var s := c + left;
    var t := TailStart(s);
    SamePrefix(s, c, |c|);
    TailFromIsLast(s, |s|, |c|);
    var m := t - |c|;
    assert s[t..] == left[m..];
    if t > 0 {
      var u := s[..t];
      SamePrefix(s, u, t);
      assert u[|c|..] == left[..m];
      NoSeparatorPrefix(left, m);
      LastSeparator(u, |c|);
      assert forall i :: 0 <= i < m ==> left[i] == u[|c| + i];
    }
    BlankAfterBreaks(left, m);
  }

  /** At the end of the stream. */
  lemma EndOfStream(c: seq<byte>, left: seq<byte>, acc: Gathered, parse: Parser)
    requires Consumed(c, acc, parse) && NoSeparator(left)
    ensures Meaning(c + left, parse) == if Blank(left) then Some(acc) else None
  {
    hide Valid, Payloads, AbsorbAll, TailStart;
    TailBlank(c, left);
    if Blank(left) {
      ValidAscii(left);
      ValidPrefix(c, left);
      PayloadsConcat(c, left);
      PayloadsWithoutD(left);
      assert Payloads(c) + [] == Payloads(c);
    }
  }

  lemma {:induction false} DecodeCorrect(c: seq<byte>, chunks: seq<seq<byte>>, buffer: seq<byte>, acc: Gathered,
                                         parse: Parser)
    requires Consumed(c, acc, parse) && NoSeparator(buffer)
    ensures var h := Decode(chunks, buffer, acc, parse);
            Meaning(c + buffer + Concat(chunks), parse) == if h.Fine? then Some(h.acc) else None
    decreases |chunks|
  {
    if chunks == [] {
      EndOfStream(c, buffer, acc, parse);
      assert c + buffer + [] == c + buffer;
    } else {
      var b, rest := buffer + chunks[0], Concat(chunks[1..]);
      assert c + buffer + Concat(chunks) == c + b + rest;
      var c' := DrainCorrect(c, b, acc, parse);
      match Drain(b, acc, parse) {
        case Stopped(_) =>
        case Going(left, acc') =>
          DecodeCorrect(c', chunks[1..], left, acc', parse);
      }
    }
  }

  /** MAIN: however a stream is cut into chunks, decoding succeeds exactly when the stream as a
      whole means something, and then gathers exactly that. */
  lemma ChunkingDoesNotMatter(chunks: seq<seq<byte>>, parse: Parser)
    ensures Decode(chunks, [], NOTHING, parse).Fine? <==> Meaning(Concat(chunks), parse).Some?
    ensures Decode(chunks, [], NOTHING, parse).Fine? ==>
              Decode(chunks, [], NOTHING, parse).acc == Meaning(Concat(chunks), parse).value
  {
    hide *;
    NothingConsumed(parse);
    DecodeCorrect([], chunks, [], NOTHING, parse);
    assert [] + [] + Concat(chunks) == Concat(chunks);
  }

  lemma NothingConsumed(parse: Parser)
    ensures Consumed([], NOTHING, parse) && NoSeparator([])
  {
    assert Payloads([]) == [];
  }

  // ----- what success gathers

  ghost predicate AllParse(payloads: seq<seq<byte>>, parse: Parser) {
    forall i :: 0 <= i < |payloads| ==> parse(payloads[i]).Some?
  }

  ghost function Parsed(payloads: seq<seq<byte>>, parse: Parser): (r: seq<StreamChunk>)
    requires AllParse(payloads, parse)
    ensures |r| == |payloads| && forall i :: 0 <= i < |r| ==> Some(r[i]) == parse(payloads[i])
  {
    if payloads == [] then []
    else Parsed(payloads[..|payloads| - 1], parse) + [parse(payloads[|payloads| - 1]).value]
  }

  lemma {:induction false} AbsorbAllIsFold(payloads: seq<seq<byte>>, parse: Parser)
    ensures AbsorbAll(payloads, NOTHING, parse).Fine? <==> AllParse(payloads, parse)
    ensures AllParse(payloads, parse) ==>
              AbsorbAll(payloads, NOTHING, parse) == Fine(AbsorbChunks(NOTHING, Parsed(payloads, parse)))
  {
    if payloads != [] {
      var before, last := payloads[..|payloads| - 1], payloads[|payloads| - 1];
      AbsorbAllIsFold(before, parse);
      AbsorbAllConcat(before, [last], NOTHING, parse);
      assert payloads == before + [last];
      if AllParse(payloads, parse) {
        assert parse(last).Some?;
        assert Parsed(payloads, parse)[..|payloads| - 1] == Parsed(before, parse);
      } else if AllParse(before, parse) {
        assert parse(last).None?;
      }
    }
  }

  /** MAIN: on success there is a tool call for exactly the indices that occur in the fragments of
      the whole stream's payloads, and its id, name and arguments are the fragments' pieces in
      order; a stream fails on a payload exactly when one does not parse. */
  lemma StreamedCalls(chunks: seq<seq<byte>>, parse: Parser, i: nat)
    ensures Decode(chunks, [], NOTHING, parse).Fine? ==> AllParse(Payloads(Concat(chunks)), parse)
    ensures Decode(chunks, [], NOTHING, parse).Fine? ==>
              var calls := Decode(chunks, [], NOTHING, parse).acc.calls;
              var fs := Fragments(Parsed(Payloads(Concat(chunks)), parse));
              && (i in calls <==> HasIndex(fs, i))
              && (i in calls ==>
                   calls[i] == PartialCall(Joined(fs, i, Id), Joined(fs, i, Name), Joined(fs, i, Arguments)))
  {
    ChunkingDoesNotMatter(chunks, parse);
    var payloads := Payloads(Concat(chunks));
    AbsorbAllIsFold(payloads, parse);
    if AllParse(payloads, parse) {
      AbsorbChunksCalls(NOTHING, Parsed(payloads, parse));
      CallIsJoined(Fragments(Parsed(payloads, parse)), i);
    }
  }

  /** What was gathered is what these chunks add up to. */
  ghost predicate AddsUp(acc: Gathered, chunks: seq<StreamChunk>) {
    && acc.deltas == Texts(chunks) && acc.content == Flat(acc.deltas)
    && forall kind :: Count(acc.usage, kind) == Spent(chunks, kind)
  }

  /** MAIN: on success the text events are the contents of all choices of the whole stream's
      payloads in order, the text is all of them joined, and the usage is their sum. */
  lemma StreamedText(chunks: seq<seq<byte>>, parse: Parser)
    requires Decode(chunks, [], NOTHING, parse).Fine?
    ensures AllParse(Payloads(Concat(chunks)), parse)
    ensures AddsUp(Decode(chunks, [], NOTHING, parse).acc, Parsed(Payloads(Concat(chunks)), parse))
  {
    ChunkingDoesNotMatter(chunks, parse);
    var payloads := Payloads(Concat(chunks));
    AbsorbAllIsFold(payloads, parse);
    hide Decode, Payloads, Concat;
    ChunksAddUp(Parsed(payloads, parse));
  }

  lemma ChunksAddUp(chunks: seq<StreamChunk>)
    ensures AddsUp(AbsorbChunks(NOTHING, chunks), chunks)
  {
    hide AbsorbChunks, Texts, Flat, Count, Spent;
    forall kind ensures Count(AbsorbChunks(NOTHING, chunks).usage, kind) == Spent(chunks, kind) {
      AbsorbChunksTexts(chunks, kind);
    }
    AbsorbChunksTexts(chunks, Prompt);
  }

  // ----- the round a response yields

  /** Decoding the response and finishing the round; nothing when either fails. */
  ghost function RoundOf(chunks: seq<seq<byte>>, parse: Parser, isJson: string -> bool): Option<Round> {
    match Decode(chunks, [], NOTHING, parse)
    case Fine(acc) => FinishRound(acc, isJson)
    case Bad(_) => None
  }

  /** The call with index `i`, read off all fragments of the stream. */
  function CallAt(fs: seq<Fragment>, i: nat): PartialCall {
    PartialCall(Joined(fs, i, Id), Joined(fs, i, Name), Joined(fs, i, Arguments))
  }

  /** The calls are those of all indices that occur, in increasing order. */
  ghost predicate InIndexOrder(fs: seq<Fragment>, calls: seq<PartialCall>, indices: seq<nat>) {
    && |indices| == |calls| && (forall j, k :: 0 <= j < k < |indices| ==> indices[j] < indices[k])
    && (forall i: nat :: i in indices <==> HasIndex(fs, i))
    && forall j :: 0 <= j < |calls| ==> calls[j] == CallAt(fs, indices[j])
  }

  lemma StreamCalls(chunks: seq<seq<byte>>, parse: Parser)
    requires Decode(chunks, [], NOTHING, parse).Fine?
    ensures AllParse(Payloads(Concat(chunks)), parse)
    ensures var calls := Decode(chunks, [], NOTHING, parse).acc.calls;
            var fs := Fragments(Parsed(Payloads(Concat(chunks)), parse));
            forall i: nat :: (i in calls <==> HasIndex(fs, i)) && (i in calls ==> calls[i] == CallAt(fs, i))
  {
    StreamedCalls(chunks, parse, 0);
    hide Decode, Payloads, Concat, AllParse;
    var calls, fs := Decode(chunks, [], NOTHING, parse).acc.calls, Fragments(Parsed(Payloads(Concat(chunks)), parse));
    forall i: nat ensures (i in calls <==> HasIndex(fs, i)) && (i in calls ==> calls[i] == CallAt(fs, i)) {
      StreamedCalls(chunks, parse, i);
    }
  }

  /** MAIN: the round is a function of the whole response. It fails exactly when the response means
      nothing or one of its calls is not usable; otherwise it has one call for every index that
      occurs, in increasing order, with the fragments' pieces joined in order, and the text and the
      usage of the whole stream. */
  lemma RoundOfResponse(chunks: seq<seq<byte>>, parse: Parser, isJson: string -> bool)
    returns (fs: seq<Fragment>, indices: seq<nat>)
    ensures AllParse(Payloads(Concat(chunks)), parse) ==> fs == Fragments(Parsed(Payloads(Concat(chunks)), parse))
    ensures RoundOf(chunks, parse, isJson).None? <==>
              || Meaning(Concat(chunks), parse).None?
              || exists i: nat :: HasIndex(fs, i) && !CompleteCall(CallAt(fs, i), isJson)
    ensures RoundOf(chunks, parse, isJson).Some? ==>
        InIndexOrder(fs, RoundOf(chunks, parse, isJson).value.calls, indices)
    ensures var r := RoundOf(chunks, parse, isJson);
            r.Some? ==> AllParse(Payloads(Concat(chunks)), parse) &&
                        RoundSays(r.value, Parsed(Payloads(Concat(chunks)), parse))
    ensures RoundOf(chunks, parse, isJson) == RoundOf([Concat(chunks)], parse, isJson)
  {
    hide *;
    var payloads := Payloads(Concat(chunks));
    ChunkingDoesNotMatter(chunks, parse);
    OnePiece(chunks, parse, isJson);
    fs, indices := [], [];
    if AllParse(payloads, parse) { fs := Fragments(Parsed(payloads, parse)); }
    var h := Decode(chunks, [], NOTHING, parse);
    RoundOfDecoded(chunks, parse, isJson);
    if h.Fine? {
      StreamCalls(chunks, parse);
      FinishedRound(h.acc, fs, isJson);
      indices := Ascending(h.acc.calls.Keys);
      StreamedText(chunks, parse);
      FinishedText(h.acc, Parsed(payloads, parse), isJson);
    }
  }

  /** The round's text is that of the whole stream, or none when it is empty; so is its usage. */
  ghost predicate RoundSays(round: Round, chunks: seq<StreamChunk>) {
    var text := Flat(Texts(chunks));
    && (round.content.None? <==> text == "") && (round.content.Some? ==> round.content.value == text)
    && forall kind :: Count(round.usage, kind) == Spent(chunks, kind)
  }

  lemma FinishedText(acc: Gathered, chunks: seq<StreamChunk>, isJson: string -> bool)
    requires AddsUp(acc, chunks)
    ensures var r := FinishRound(acc, isJson); r.Some? ==> RoundSays(r.value, chunks)
  {
  }

  lemma RoundOfDecoded(chunks: seq<seq<byte>>, parse: Parser, isJson: string -> bool)
    ensures var h := Decode(chunks, [], NOTHING, parse);
            RoundOf(chunks, parse, isJson) == if h.Fine? then FinishRound(h.acc, isJson) else None
  {
    hide Decode, FinishRound;
  }

  lemma OnePiece(chunks: seq<seq<byte>>, parse: Parser, isJson: string -> bool)
    ensures RoundOf(chunks, parse, isJson) == RoundOf([Concat(chunks)], parse, isJson)
  {
    var s := Concat(chunks);
    assert [s][1..] == [] && Concat([]) == [] && s + [] == s;
    assert Concat([s]) == s + Concat([s][1..]);
    ChunkingDoesNotMatter(chunks, parse);
    ChunkingDoesNotMatter([s], parse);
    hide Decode, Meaning, FinishRound;
  }

  /** Finishing what was gathered from the fragments `fs`. */
  lemma FinishedRound(acc: Gathered, fs: seq<Fragment>, isJson: string -> bool)
    requires forall i: nat ::
               (i in acc.calls <==> HasIndex(fs, i)) && (i in acc.calls ==> acc.calls[i] == CallAt(fs, i))
    ensures var r := FinishRound(acc, isJson);
            && (r.None? <==> exists i: nat :: HasIndex(fs, i) && !CompleteCall(CallAt(fs, i), isJson))
            && (r.Some? ==> InIndexOrder(fs, r.value.calls, Ascending(acc.calls.Keys)))
  {
    hide HasIndex, CallAt, CompleteCall, Ascending;
    if k :| k in acc.calls && !CompleteCall(acc.calls[k], isJson) {
      assert HasIndex(fs, k) && !CompleteCall(CallAt(fs, k), isJson);
    }
  }

  // ----- the loop as it runs

  /** The payload loop of one event. */
  method HandlePayloads(event: seq<byte>, before: Gathered, parse: Parser) returns (h: Handled)
    ensures h == HandleEvent(event, before, parse)
  {
    var acc := before;
    if !Valid(event) {
      return Bad(acc);
    }
    var payloads := Payloads(event);
    for j := 0 to |payloads|
      invariant AbsorbAll(payloads, before, parse) == AbsorbAll(payloads[j..], acc, parse)
    {
      assert payloads[j..][0] == payloads[j] && payloads[j..][1..] == payloads[j + 1..];
      match parse(payloads[j]) {
        case None => return Bad(acc);
        case Some(chunk) => acc := Absorb(acc, chunk);
      }
    }
    return Fine(acc);
  }

  /** The inner loop: cuts every complete event off the front of the buffer. */
  method DrainBuffer(bytes: seq<byte>, before: Gathered, parse: Parser) returns (d: Drained)
    ensures d == Drain(bytes, before, parse)
  {
    hide Find, Payloads, AbsorbAll, Valid;
    var buffer, acc := bytes, before;
    var end := FindEventEnd(buffer);
    while end.Some?
      invariant end == FindEventEnd(buffer)
      invariant Drain(bytes, before, parse) == Drain(buffer, acc, parse)
      decreases |buffer|
    {
      var h := HandlePayloads(buffer[..end.value], acc, parse);
      if h.Bad? { return Stopped(h.acc); }
      buffer, acc := DropSeparator(buffer[end.value..]), h.acc;
      end := FindEventEnd(buffer);
    }
    return Going(buffer, acc);
  }

  /** `decode_stream_response` up to the end of the stream: appends each chunk to the buffer and
      cuts events off its front. `sent` are the text events the caller has seen either way. */
  method DecodeStream(chunks: seq<seq<byte>>, parse: Parser) returns (result: Option<Gathered>, sent: seq<string>)
    ensures result == Meaning(Concat(chunks), parse)
    ensures result.Some? ==> AllParse(Payloads(Concat(chunks)), parse) && sent == result.value.deltas &&
                             AddsUp(result.value, Parsed(Payloads(Concat(chunks)), parse))
    ensures sent == Decode(chunks, [], NOTHING, parse).acc.deltas
  {
    ChunkingDoesNotMatter(chunks, parse);
    if Decode(chunks, [], NOTHING, parse).Fine? { StreamedText(chunks, parse); }
    hide Drain, Meaning, AddsUp, AllParse, Payloads, Concat;
    var buffer: seq<byte>, acc := [], NOTHING;
    for i := 0 to |chunks|
      invariant Decode(chunks, [], NOTHING, parse) == Decode(chunks[i..], buffer, acc, parse)
    {
      DecodeStep(chunks[i..], buffer, acc, parse);
      assert chunks[i..][1..] == chunks[i + 1..];
      var d := DrainBuffer(buffer + chunks[i], acc, parse);
      if d.Stopped? { return None, d.acc.deltas; }
      buffer, acc := d.buffer, d.acc;
    }
    return if Blank(buffer) then Some(acc) else None, acc.deltas;
  }

  lemma DecodeStep(chunks: seq<seq<byte>>, buffer: seq<byte>, acc: Gathered, parse: Parser)
    requires chunks != []
    ensures var d := Drain(buffer + chunks[0], acc, parse);
            Decode(chunks, buffer, acc, parse) ==
              if d.Stopped? then Bad(d.acc) else Decode(chunks[1..], d.buffer, d.acc, parse)
  {
  }
}
