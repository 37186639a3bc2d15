/** What the chunks of a streamed model answer add up to: the text, the token usage, and tool
    calls put together from fragments that carry an index. */
module ToolCalls {
  import opened Text

  datatype Fragment = Fragment(index: nat, id: Option<string>, name: Option<string>, arguments: Option<string>)
  datatype Choice = Choice(content: Option<string>, fragments: seq<Fragment>)
  datatype Usage = Usage(prompt: nat, completion: nat, total: nat)
  datatype StreamChunk = StreamChunk(choices: seq<Choice>, usage: Usage)

  datatype PartialCall = PartialCall(id: string, name: string, arguments: string)

  /** The answer so far; `deltas` are the text events sent to the caller. */
  datatype Gathered = Gathered(content: string, deltas: seq<string>, calls: map<nat, PartialCall>, usage: Usage)

  const NOTHING: Gathered := Gathered("", [], map[], Usage(0, 0, 0))

  function OrEmpty(s: Option<string>): string {
    match s case Some(t) => t case None => ""
  }

  function AddFragment(calls: map<nat, PartialCall>, f: Fragment): map<nat, PartialCall> {
    var was := if f.index in calls then calls[f.index] else PartialCall("", "", "");
    calls[f.index := PartialCall(was.id + OrEmpty(f.id), was.name + OrEmpty(f.name), was.arguments +
      OrEmpty(f.arguments))]
  }

  function AddFragments(calls: map<nat, PartialCall>, fs: seq<Fragment>): map<nat, PartialCall> {
    if fs == [] then calls else AddFragment(AddFragments(calls, fs[..|fs| - 1]), fs[|fs| - 1])
  }

  function AbsorbChoice(acc: Gathered, choice: Choice): Gathered {
    var texts := match choice.content case Some(t) => [t] case None => [];
    Gathered(acc.content + OrEmpty(choice.content), acc.deltas + texts,
             AddFragments(acc.calls, choice.fragments), acc.usage)
  }

  function AbsorbChoices(acc: Gathered, choices: seq<Choice>): Gathered
    decreases |choices|
  {
    if choices == [] then acc else AbsorbChoices(AbsorbChoice(acc, choices[0]), choices[1..])
  }

  function Absorb(acc: Gathered, chunk: StreamChunk): Gathered {
    var u, v := acc.usage, chunk.usage;
    AbsorbChoices(acc.(usage := Usage(u.prompt + v.prompt, u.completion + v.completion, u.total + v.total)),
                  chunk.choices)
  }

  function AbsorbChunks(acc: Gathered, chunks: seq<StreamChunk>): Gathered {
    if chunks == [] then acc else Absorb(AbsorbChunks(acc, chunks[..|chunks| - 1]), chunks[|chunks| - 1])
  }

  // ----- the text and the token usage

  /** The texts of the choices that carry one, in order. */
  function ChoiceTexts(choices: seq<Choice>): seq<string> {
    if choices == [] then []
    else
      var rest := ChoiceTexts(choices[1..]);
      if choices[0].content.Some? then [choices[0].content.value] + rest else rest
  }

  /** All texts of a stream in the order they came. */
  function Texts(chunks: seq<StreamChunk>): seq<string> {
    if chunks == [] then [] else Texts(chunks[..|chunks| - 1]) + ChoiceTexts(chunks[|chunks| - 1].choices)
  }

  function Flat(texts: seq<string>): string {
    if texts == [] then "" else Flat(texts[..|texts| - 1]) + texts[|texts| - 1]
  }

  datatype Tokens = Prompt | Completion | Total

  function Count(usage: Usage, kind: Tokens): nat {
    match kind case Prompt => usage.prompt case Completion => usage.completion case Total => usage.total
  }

  /** The tokens of one kind that all chunks report together. */
  function Spent(chunks: seq<StreamChunk>, kind: Tokens): nat {
    if chunks == [] then 0 else Spent(chunks[..|chunks| - 1], kind) + Count(chunks[|chunks| - 1].usage, kind)
  }

  lemma {:induction false} FlatConcat(a: seq<string>, b: seq<string>)
    ensures Flat(a + b) == Flat(a) + Flat(b)
  {
    if b == [] {
      assert a + b == a;
    } else {
      FlatConcat(a, b[..|b| - 1]);
      assert (a + b)[..|a + b| - 1] == a + b[..|b| - 1];
    }
  }

  /** The texts are added to what was gathered before. */
  ghost predicate Adds(acc: Gathered, r: Gathered, texts: seq<string>) {
    r.content == acc.content + Flat(texts) && r.deltas == acc.deltas + texts
  }

  lemma AddsMore(acc: Gathered, choice: Choice, r: Gathered, texts: seq<string>)
    requires Adds(AbsorbChoice(acc, choice), r, texts)
    ensures Adds(acc, r, if choice.content.Some? then [choice.content.value] + texts else texts)
  {
    if choice.content.Some? {
      var text := choice.content.value;
      FlatConcat([text], texts);
      assert [text][..0] == [] && Flat([text]) == "" + text == text;
      assert acc.deltas + [text] + texts == acc.deltas + ([text] + texts);
    }
  }

  lemma {:induction false} AbsorbChoicesTexts(acc: Gathered, choices: seq<Choice>)
    ensures AbsorbChoices(acc, choices).usage == acc.usage
    ensures Adds(acc, AbsorbChoices(acc, choices), ChoiceTexts(choices))
    decreases |choices|
  {
    if choices != [] {
      var next := AbsorbChoice(acc, choices[0]);
      AbsorbChoicesTexts(next, choices[1..]);
      hide Adds;
      AddsMore(acc, choices[0], AbsorbChoices(next, choices[1..]), ChoiceTexts(choices[1..]));
    }
  }

  lemma AbsorbTexts(acc: Gathered, chunk: StreamChunk, kind: Tokens)
    ensures Adds(acc, Absorb(acc, chunk), ChoiceTexts(chunk.choices))
    ensures Count(Absorb(acc, chunk).usage, kind) == Count(acc.usage, kind) + Count(chunk.usage, kind)
  {
    var u, v := acc.usage, chunk.usage;
    var sum := Usage(u.prompt + v.prompt, u.completion + v.completion, u.total + v.total);
    AbsorbChoicesTexts(acc.(usage := sum), chunk.choices);
  }

  /** What a stream adds up to: its texts in order, all of them joined, and the sum of the usage. */
  lemma {:induction false} AbsorbChunksTexts(chunks: seq<StreamChunk>, kind: Tokens)
    ensures var r := AbsorbChunks(NOTHING, chunks);
            r.deltas == Texts(chunks) && r.content == Flat(r.deltas) && Count(r.usage, kind) == Spent(chunks, kind)
  {
    if chunks != [] {
      var before, last := chunks[..|chunks| - 1], chunks[|chunks| - 1];
      AbsorbChunksTexts(before, kind);
      AbsorbTexts(AbsorbChunks(NOTHING, before), last, kind);
      FlatConcat(Texts(before), ChoiceTexts(last.choices));
      hide Absorb, Flat, Count, ChoiceTexts;
    }
  }

  // ----- fragments, put together again

  function ChoiceFragments(choices: seq<Choice>): seq<Fragment> {
    if choices == [] then [] else choices[0].fragments + ChoiceFragments(choices[1..])
  }

  /** All fragments of a stream in the order they came. */
  function Fragments(chunks: seq<StreamChunk>): seq<Fragment> {
    if chunks == [] then []
    else Fragments(chunks[..|chunks| - 1]) + ChoiceFragments(chunks[|chunks| - 1].choices)
  }

  datatype Field = Id | Name | Arguments

  function Piece(f: Fragment, field: Field): string {
    OrEmpty(match field case Id => f.id case Name => f.name case Arguments => f.arguments)
  }

  /** One field of the fragments with index `i`, joined in order. */
  function Joined(fs: seq<Fragment>, i: nat, field: Field): string {
    if fs == [] then ""
    else Joined(fs[..|fs| - 1], i, field) + if fs[|fs| - 1].index == i then Piece(fs[|fs| - 1], field) else ""
  }

  lemma {:induction false} AddFragmentsConcat(calls: map<nat, PartialCall>, a: seq<Fragment>, b: seq<Fragment>)
    ensures AddFragments(calls, a + b) == AddFragments(AddFragments(calls, a), b)
  {
    if b == [] {
      assert a + b == a;
    } else {
      AddFragmentsConcat(calls, a, b[..|b| - 1]);
      assert (a + b)[..|a + b| - 1] == a + b[..|b| - 1];
    }
  }

  lemma {:induction false} AbsorbChoicesCalls(acc: Gathered, choices: seq<Choice>)
    ensures AbsorbChoices(acc, choices).calls == AddFragments(acc.calls, ChoiceFragments(choices))
    decreases |choices|
  {
    if choices != [] {
      AbsorbChoicesCalls(AbsorbChoice(acc, choices[0]), choices[1..]);
      AddFragmentsConcat(acc.calls, choices[0].fragments, ChoiceFragments(choices[1..]));
    }
  }

  lemma {:induction false} AbsorbChunksCalls(acc: Gathered, chunks: seq<StreamChunk>)
    ensures AbsorbChunks(acc, chunks).calls == AddFragments(acc.calls, Fragments(chunks))
  {
    if chunks != [] {
      var before, last := chunks[..|chunks| - 1], chunks[|chunks| - 1];
      AbsorbChunksCalls(acc, before);
      var mid := AbsorbChunks(acc, before);
      AbsorbChoicesCalls(mid.(usage := Absorb(mid, last.(choices := [])).usage), last.choices);
      AddFragmentsConcat(acc.calls, Fragments(before), ChoiceFragments(last.choices));
    }
  }

  predicate HasIndex(fs: seq<Fragment>, i: nat) {
    exists k :: 0 <= k < |fs| && fs[k].index == i
  }

  function CallOrEmpty(calls: map<nat, PartialCall>, i: nat): PartialCall {
    if i in calls then calls[i] else PartialCall("", "", "")
  }

  /** There is a call for exactly the indices that occur, its fields the pieces joined in order. */
  lemma {:induction false} CallIsJoined(fs: seq<Fragment>, i: nat)
    ensures i in AddFragments(map[], fs) <==> HasIndex(fs, i)
    ensures CallOrEmpty(AddFragments(map[], fs), i) ==
            PartialCall(Joined(fs, i, Id), Joined(fs, i, Name), Joined(fs, i, Arguments))
  {
    if fs != [] {
      var before, f := fs[..|fs| - 1], fs[|fs| - 1];
      CallIsJoined(before, i);
      assert HasIndex(fs, i) <==> HasIndex(before, i) || f.index == i by {
        assert forall k :: 0 <= k < |before| ==> before[k] == fs[k];
      }
    }
  }

  // ----- the finished round

  ghost predicate IsLargest(keys: set<nat>, k: nat) {
    k in keys && forall j :: j in keys ==> j <= k
  }

  lemma {:induction false} LargestExists(keys: set<nat>) returns (k: nat)
    requires keys != {}
    ensures IsLargest(keys, k)
  {
    k :| k in keys;
    var rest := keys - {k};
    assert forall j :: j in keys ==> j == k || j in rest;
    if rest != {} {
      var other := LargestExists(rest);
      if other > k { k := other; }
    }
  }

  /** The keys of an ordered map, smallest first. */
  ghost function Ascending(keys: set<nat>): (ks: seq<nat>)
    ensures forall i, j :: 0 <= i < j < |ks| ==> ks[i] < ks[j]
    ensures forall k :: k in ks <==> k in keys
  {
    if keys == {} then []
    else
      assert exists k :: IsLargest(keys, k) by { var k := LargestExists(keys); }
      var k :| IsLargest(keys, k);
      Ascending(keys - {k}) + [k]
  }

  /** A call is usable when it has an id, a name and arguments that are JSON. */
  predicate CompleteCall(call: PartialCall, isJson: string -> bool) {
    Trim(call.id) != "" && Trim(call.name) != "" && isJson(call.arguments)
  }

  datatype Round = Round(content: Option<string>, calls: seq<PartialCall>, usage: Usage)

  /** The provider round a complete stream yields: the calls in index order, or an error when one
      of them is not usable. */
  ghost function FinishRound(acc: Gathered, isJson: string -> bool): Option<Round> {
    var ks := Ascending(acc.calls.Keys);
    if forall k :: k in acc.calls ==> CompleteCall(acc.calls[k], isJson)
    then Some(Round(if acc.content == "" then None else Some(acc.content),
                    seq(|ks|, i requires 0 <= i < |ks| => acc.calls[ks[i]]), acc.usage))
    else None
  }
}
