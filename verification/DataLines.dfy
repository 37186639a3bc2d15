/** What a `data:` line and a text of such lines give, said without the reader. */
module DataLines {
  import opened Utf8
  import opened SseLines

  /** White space characters only. */
  predicate AllWs(s: seq<byte>) {
    s == [] || (WsAtEnd(s) > 0 && AllWs(s[..|s| - WsAtEnd(s)]))
  }

  predicate NothingToTrim(s: seq<byte>) {
    WsAtStart(s) == 0 && WsAtEnd(s) == 0
  }

  lemma WsAtEndStays(a: seq<byte>, b: seq<byte>)
    requires WsAtEnd(b) > 0
    ensures WsAtEnd(a + b) == WsAtEnd(b)
  {
    assert forall i :: 0 <= i < |b| ==> (a + b)[|a| + i] == b[i];
  }

  lemma {:induction false} WsConcat(a: seq<byte>, b: seq<byte>)
    requires AllWs(a) && AllWs(b)
    ensures AllWs(a + b)
    decreases |b|
  {
    if b == [] {
      assert a + b == a;
    } else {
      WsAtEndStays(a, b);
      var k := WsAtEnd(b);
      WsConcat(a, b[..|b| - k]);
      assert (a + b)[..|a + b| - k] == a + b[..|b| - k];
    }
  }

  /** White space in front neither ends a text nor hides how it ends. */
  lemma WsInFront(a: seq<byte>, p: seq<byte>)
    requires AllWs(a) && p != [] && WsAtEnd(p) == 0
    ensures WsAtEnd(a + p) == 0
  {
    var s := a + p;
    assert s[|s| - 1] == p[|p| - 1];
    if |p| >= 2 { assert s[|s| - 2] == p[|p| - 2]; }
    if |p| >= 3 { assert s[|s| - 3] == p[|p| - 3]; }
    if |a| >= 1 { assert s[|a| - 1] == a[|a| - 1]; }
    if |a| >= 2 { assert s[|a| - 2] == a[|a| - 2]; }
  }

  lemma {:induction false} TrimRightIs(a: seq<byte>, b: seq<byte>)
    requires AllWs(b) && WsAtEnd(a) == 0
    ensures TrimRight(a + b) == a
    decreases |b|
  {
    if b == [] {
      assert a + b == a;
    } else {
      WsAtEndStays(a, b);
      var k := WsAtEnd(b);
      TrimRightIs(a, b[..|b| - k]);
      assert (a + b)[..|a + b| - k] == a + b[..|b| - k];
    }
  }

  lemma OneWsInFront(w: seq<byte>, t: seq<byte>)
    requires w != [] && WsAtEnd(w) == |w|
    ensures WsAtStart(w + t) == |w| && (w + t)[|w|..] == t
  {
    assert forall i :: 0 <= i < |w| ==> (w + t)[i] == w[i];
  }

  lemma {:induction false} TrimLeftSkips(a: seq<byte>, t: seq<byte>)
    requires AllWs(a)
    ensures TrimLeft(a + t) == TrimLeft(t)
    decreases |a|
  {
    if a == [] {
      assert a + t == t;
    } else {
      var n := |a| - WsAtEnd(a);
      var w := a[n..];
      LastWs(a);
      TrimLeftSkips(a[..n], w + t);
      OneWsInFront(w, t);
      assert a + t == a[..n] + (w + t);
    }
  }

  lemma LastWs(a: seq<byte>)
    ensures WsAtEnd(a[|a| - WsAtEnd(a)..]) == WsAtEnd(a)
  {
  }

  lemma LastIsWs(a: seq<byte>)
    requires WsAtEnd(a) > 0
    ensures AllWs(a[|a| - WsAtEnd(a)..])
  {
    LastWs(a);
    assert a[|a| - WsAtEnd(a)..][..0] == [];
  }

  lemma FirstWs(s: seq<byte>)
    requires WsAtStart(s) > 0
    ensures AllWs(s[..WsAtStart(s)])
  {
    var w := s[..WsAtStart(s)];
    assert WsAtEnd(w) == |w|;
    assert w[..0] == [];
  }

  lemma TrimLeftStep(s: seq<byte>)
    ensures TrimLeft(s) == if WsAtStart(s) == 0 then s else TrimLeft(s[WsAtStart(s)..])
  {
  }

  lemma TrimRightStep(s: seq<byte>)
    ensures TrimRight(s) == if WsAtEnd(s) == 0 then s else TrimRight(s[..|s| - WsAtEnd(s)])
  {
  }

  lemma NoWs()
    ensures AllWs([])
  {
  }

  lemma {:induction false} TrimLeftCuts(s: seq<byte>) returns (a: seq<byte>)
    ensures AllWs(a) && s == a + TrimLeft(s) && WsAtStart(TrimLeft(s)) == 0
  {
    hide *;
    TrimLeftStep(s);
    NoWs();
    a := [];
    var k := WsAtStart(s);
    if k > 0 {
      var more := TrimLeftCuts(s[k..]);
      FirstWs(s);
      WsConcat(s[..k], more);
      a := s[..k] + more;
      assert s == s[..k] + s[k..];
      assert s[..k] + (more + TrimLeft(s)) == a + TrimLeft(s);
    }
  }

  lemma {:induction false} TrimRightCuts(s: seq<byte>) returns (b: seq<byte>)
    ensures AllWs(b) && s == TrimRight(s) + b && WsAtEnd(TrimRight(s)) == 0
  {
    hide *;
    TrimRightStep(s);
    NoWs();
    b := [];
    var k := WsAtEnd(s);
    if k > 0 {
      var n := |s| - k;
      var more := TrimRightCuts(s[..n]);
      LastIsWs(s);
      WsConcat(more, s[n..]);
      b := more + s[n..];
      assert s == s[..n] + s[n..];
      assert (TrimRight(s) + more) + s[n..] == TrimRight(s) + b;
    }
  }

  /** The line is the tag, the payload and white space around the payload. */
  ghost predicate Carries(line: seq<byte>, a: seq<byte>, p: seq<byte>, b: seq<byte>) {
    line == DATA + a + p + b && AllWs(a) && AllWs(b) && NothingToTrim(p) && p != [] && p != DONE
  }

  lemma TrimmedIs(a: seq<byte>, p: seq<byte>, b: seq<byte>)
    requires AllWs(a) && AllWs(b) && NothingToTrim(p) && p != []
    ensures Trimmed(a + p + b) == p
  {
    WsInFront(a, p);
    TrimRightIs(a + p, b);
    TrimLeftSkips(a, p);
  }

  lemma TrimmedCuts(s: seq<byte>) returns (a: seq<byte>, b: seq<byte>)
    ensures AllWs(a) && AllWs(b) && NothingToTrim(Trimmed(s)) && s == a + Trimmed(s) + b
  {
    b := TrimRightCuts(s);
    a := TrimLeftCuts(TrimRight(s));
    if WsAtEnd(Trimmed(s)) > 0 { WsAtEndStays(a, Trimmed(s)); }
  }

  /** MAIN: a line has the payload `p` exactly when it is `data:` followed by `p` with white space
      around it, and `p` is neither empty nor the end marker; it never has more than one. */
  lemma LinePayloadIs(line: seq<byte>, p: seq<byte>)
    ensures LinePayload(line) == [p] <==> exists a, b :: Carries(line, a, p, b)
    ensures |LinePayload(line)| <= 1
  {
    hide Trimmed, AllWs, NothingToTrim;
    if LinePayload(line) == [p] {
      var a, b := TrimmedCuts(line[|DATA|..]);
      assert line == DATA + line[|DATA|..];
      assert Carries(line, a, p, b);
    }
    if a, b :| Carries(line, a, p, b) {
      TrimmedIs(a, p, b);
      assert line == DATA + (a + p + b) && line[|DATA|..] == a + p + b;
    }
  }

  // ----- a text, line by line

  lemma {:induction false} ReadsLine(line: seq<byte>)
    requires LF !in line
    ensures ReadAll(Reader([], []), line) == Reader([], line)
  {
    if line != [] {
      var n := |line| - 1;
      ReadsLine(line[..n]);
      assert line == line[..n] + [line[n]];
    }
  }

  function Lines(lines: seq<seq<byte>>): seq<byte> {
    if lines == [] then [] else Lines(lines[..|lines| - 1]) + lines[|lines| - 1] + [LF]
  }

  function LinePayloads(lines: seq<seq<byte>>): seq<seq<byte>> {
    if lines == [] then [] else LinePayloads(lines[..|lines| - 1]) + LinePayload(lines[|lines| - 1])
  }

  lemma OneMoreLine(s: seq<byte>, line: seq<byte>)
    requires WholeLines(s) && LF !in line
    ensures Payloads(s + line) == Payloads(s + line + [LF]) == Payloads(s) + LinePayload(line)
  {
    PayloadsConcat(s, line);
    PayloadsBreak(s + line, LF);
    ReadsLine(line);
    assert [] + LinePayload(line) == LinePayload(line);
  }

  /** MAIN: the payloads of a text are those of its lines, in order, whether or not the last line is
      ended. */
  lemma {:induction false} PayloadsOfLines(lines: seq<seq<byte>>, last: seq<byte>)
    requires (forall i :: 0 <= i < |lines| ==> LF !in lines[i]) && LF !in last
    ensures Payloads(Lines(lines)) == LinePayloads(lines)
    ensures Payloads(Lines(lines) + last) == LinePayloads(lines) + LinePayload(last)
  {
    hide Payloads, LinePayload;
    if lines == [] {
      NoPayloads();
    } else {
      PayloadsOfLines(lines[..|lines| - 1], lines[|lines| - 1]);
      OneMoreLine(Lines(lines[..|lines| - 1]), lines[|lines| - 1]);
    }
    OneMoreLine(Lines(lines), last);
  }

  lemma NoPayloads()
    ensures Payloads([]) == []
  {
  }
}
