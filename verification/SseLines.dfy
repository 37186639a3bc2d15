/** The `data:` payloads of a piece of an event stream, and how they behave under
    concatenation. Lines follow `str::lines`, whitespace follows `str::trim`. */
module SseLines {
  import opened Utf8

  const LF: byte := 10
  const CR: byte := 13
  const DATA: seq<byte> := [100, 97, 116, 97, 58]      // "data:"
  const DONE: seq<byte> := [91, 68, 79, 78, 69, 93]    // "[DONE]"

  predicate IsWs1(a: byte) {
    9 <= a <= 13 || a == 32
  }

  predicate IsWs2(a: byte, b: byte) {
    a == 0xC2 && (b == 0x85 || b == 0xA0)
  }

  predicate IsWs3(a: byte, b: byte, c: byte) {
    || (a == 0xE1 && b == 0x9A && c == 0x80)
    || (a == 0xE2 && b == 0x80 && (0x80 <= c <= 0x8A || c == 0xA8 || c == 0xA9 || c == 0xAF))
    || (a == 0xE2 && b == 0x81 && c == 0x9F)
    || (a == 0xE3 && b == 0x80 && c == 0x80)
  }

  /** Length of the whitespace character that ends `s`, or 0. */
  function WsAtEnd(s: seq<byte>): (k: nat)
    ensures k <= |s|
  {
    var n := |s|;
    if n >= 1 && IsWs1(s[n - 1]) then 1
    else if n >= 2 && IsWs2(s[n - 2], s[n - 1]) then 2
    else if n >= 3 && IsWs3(s[n - 3], s[n - 2], s[n - 1]) then 3
    else 0
  }

  /** Length of the whitespace character that starts `s`, or 0. */
  function WsAtStart(s: seq<byte>): (k: nat)
    ensures k <= |s|
  {
    if |s| >= 1 && IsWs1(s[0]) then 1
    else if |s| >= 2 && IsWs2(s[0], s[1]) then 2
    else if |s| >= 3 && IsWs3(s[0], s[1], s[2]) then 3
    else 0
  }

  function TrimRight(s: seq<byte>): seq<byte> {
    var k := WsAtEnd(s);
    if k == 0 then s else TrimRight(s[..|s| - k])
  }

  function TrimLeft(s: seq<byte>): seq<byte> {
    var k := WsAtStart(s);
    if k == 0 then s else TrimLeft(s[k..])
  }

  function Trimmed(s: seq<byte>): seq<byte> {
    TrimLeft(TrimRight(s))
  }

  /** The payload of one line: none, unless the line is a `data:` line that carries something
      other than the end marker. */
  function LinePayload(line: seq<byte>): seq<seq<byte>> {
    if DATA <= line then
      var data := Trimmed(line[|DATA|..]);
      if data == [] || data == DONE then [] else [data]
    else []
  }

  /** `lines` removes one carriage return before a line feed. */
  function StripCr(line: seq<byte>): seq<byte> {
    if line != [] && line[|line| - 1] == CR then line[..|line| - 1] else line
  }

  /** Reading a text byte by byte: the payloads of the finished lines and the line begun. */
  datatype Reader = Reader(found: seq<seq<byte>>, line: seq<byte>)

  function Read(r: Reader, b: byte): Reader {
    if b == LF then Reader(r.found + LinePayload(StripCr(r.line)), []) else Reader(r.found, r.line + [b])
  }

  function ReadAll(r: Reader, s: seq<byte>): Reader {
    if s == [] then r else Read(ReadAll(r, s[..|s| - 1]), s[|s| - 1])
  }

  /** A last line without a line feed counts too, and keeps its carriage return. */
  function Finish(r: Reader): seq<seq<byte>> {
    r.found + LinePayload(r.line)
  }

  /** The payloads of all lines of `s` in order. */
  function Payloads(s: seq<byte>): seq<seq<byte>> {
    Finish(ReadAll(Reader([], []), s))
  }

  /** A trailing carriage return never changes a line's payload. */
  lemma LinePayloadCr(line: seq<byte>)
    ensures LinePayload(line + [CR]) == LinePayload(line)
  {
    var l := line + [CR];
    if DATA <= line {
      var rest := line[|DATA|..];
      assert l[|DATA|..] == rest + [CR];
      assert (rest + [CR])[..|rest|] == rest;
      assert TrimRight(rest + [CR]) == TrimRight(rest);
    }
  }

  /** Line breaks at the end of a text carry no payload. */
  lemma {:induction false} PayloadsTrailing(s: seq<byte>, w: seq<byte>)
    requires forall i :: 0 <= i < |w| ==> w[i] == LF || w[i] == CR
    ensures Payloads(s + w) == Payloads(s)
  {
    if w == [] {
      assert s + w == s;
    } else {
      var v, b := w[..|w| - 1], w[|w| - 1];
      PayloadsTrailing(s, v);
      assert s + w == (s + v) + [b];
      PayloadsBreak(s + v, b);
    }
  }

  lemma PayloadsBreak(s: seq<byte>, b: byte)
    requires b == LF || b == CR
    ensures Payloads(s + [b]) == Payloads(s)
  {
    assert (s + [b])[..|s|] == s;
    FinishBreak(ReadAll(Reader([], []), s), b);
  }

  lemma FinishBreak(r: Reader, b: byte)
    requires b == LF || b == CR
    ensures Finish(Read(r, b)) == Finish(r)
  {
    if b == CR {
      LinePayloadCr(r.line);
    } else if r.line != [] && r.line[|r.line| - 1] == CR {
      LinePayloadCr(r.line[..|r.line| - 1]);
      assert r.line == r.line[..|r.line| - 1] + [CR];
    }
  }

  /** Nothing, or complete lines. */
  predicate WholeLines(s: seq<byte>) {
    s == [] || s[|s| - 1] == LF
  }

  /** Text cut after a line feed can be read piece by piece. */
  lemma PayloadsConcat(a: seq<byte>, b: seq<byte>)
    requires WholeLines(a)
    ensures Payloads(a + b) == Payloads(a) + Payloads(b)
  {
    var start := Reader([], []);
    ReadAllConcat(start, a, b);
    var mid := ReadAll(start, a);
    assert mid.line == [] && LinePayload([]) == [];
    ReadAllFound(mid.found, b);
  }

  lemma {:induction false} ReadAllConcat(r: Reader, a: seq<byte>, b: seq<byte>)
    ensures ReadAll(r, a + b) == ReadAll(ReadAll(r, a), b)
  {
    if b == [] {
      assert a + b == a;
    } else {
      ReadAllConcat(r, a, b[..|b| - 1]);
      assert (a + b)[..|a + b| - 1] == a + b[..|b| - 1];
    }
  }

  /** What was found before is only carried along. */
  lemma {:induction false} ReadAllFound(found: seq<seq<byte>>, s: seq<byte>)
    ensures var r := ReadAll(Reader([], []), s);
            ReadAll(Reader(found, []), s) == Reader(found + r.found, r.line)
  {
    if s != [] { ReadAllFound(found, s[..|s| - 1]); }
  }

  /** A text without the letter `d` has no payload; in particular a blank one. */
  lemma PayloadsWithoutD(s: seq<byte>)
    requires 100 !in s
    ensures Payloads(s) == []
  {
    ReadAllWithoutD(s);
    LineWithoutD(ReadAll(Reader([], []), s).line);
  }

  lemma LineWithoutD(line: seq<byte>)
    requires 100 !in line
    ensures LinePayload(line) == []
  {
    assert DATA[0] == 100;
  }

  lemma {:induction false} ReadAllWithoutD(s: seq<byte>)
    requires 100 !in s
    ensures var r := ReadAll(Reader([], []), s); r.found == [] && 100 !in r.line
  {
    if s != [] {
      var r := ReadAll(Reader([], []), s[..|s| - 1]);
      ReadAllWithoutD(s[..|s| - 1]);
      LineWithoutD(StripCr(r.line));
    }
  }
}
