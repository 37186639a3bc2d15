/** Setting a value at a dotted path inside a JSON document. */
module JsonPath {
  import opened Text

  /** Only objects have structure here; every other JSON value is a leaf. */
  datatype Json = Leaf(text: string) | Object(fields: map<string, Json>)

  type Path = seq<string>

  // ----- the path

  function Split(path: string): (parts: seq<string>)
    ensures |parts| >= 1
  {
    if path == "" then [""]
    else
      var rest := Split(path[1..]);
      if path[0] == '.' then [""] + rest else [[path[0]] + rest[0]] + rest[1..]
  }

  function Joined(parts: seq<string>): string
    requires |parts| >= 1
  {
    if |parts| == 1 then parts[0] else parts[0] + "." + Joined(parts[1..])
  }

  /** The parts hold no dot and, joined by dots, are the path. */
  lemma {:induction false} SplitJoins(path: string)
    ensures Joined(Split(path)) == path && forall i :: 0 <= i < |Split(path)| ==> '.' !in Split(path)[i]
  {
    if path != "" {
      SplitJoins(path[1..]);
      var parts, rest := Split(path), Split(path[1..]);
      if path[0] == '.' {
        assert parts[1..] == rest;
        assert path == "" + "." + path[1..];
      } else {
        assert parts[1..] == rest[1..];
        assert path == [path[0]] + path[1..];
        if |rest| > 1 {
          assert [path[0]] + rest[0] + "." + Joined(rest[1..]) == [path[0]] + (rest[0] + "." + Joined(rest[1..]));
        }
      }
    }
  }

  function Named(parts: seq<string>): Path {
    if parts == [] then []
    else
      var last := Trim(parts[|parts| - 1]);
      Named(parts[..|parts| - 1]) + if last != "" then [last] else []
  }

  /** The segments: split at dots, trimmed, empty ones left out. */
  function Segments(path: string): Path {
    Named(Split(path))
  }

  ghost predicate Increasing(at: seq<nat>) {
    forall j, k :: 0 <= j < k < |at| ==> at[j] < at[k]
  }

  predicate IsAt(at: seq<nat>, k: nat, i: nat) {
    k < |at| && at[k] == i
  }

  ghost predicate Picked(at: seq<nat>, i: nat) {
    exists k: nat :: IsAt(at, k, i)
  }

  predicate IsNamed(parts: seq<string>, i: nat) {
    i < |parts| && Trim(parts[i]) != ""
  }

  /** The segments are, in order, the trimmed parts at these places, which are all that are not blank. */
  ghost predicate Picks(parts: seq<string>, segments: Path, at: seq<nat>) {
    && |at| == |segments| && Increasing(at)
    && (forall k: nat, i: nat :: IsAt(at, k, i) ==> IsNamed(parts, i) && segments[k] == Trim(parts[i]))
    && forall i: nat :: IsNamed(parts, i) ==> Picked(at, i)
  }

  ghost predicate NamesParts(path: string, segments: Path) {
    exists at :: Picks(Split(path), segments, at)
  }

  lemma PicksOneMore(parts: seq<string>, segments: Path, at: seq<nat>)
    requires parts != [] && Picks(parts[..|parts| - 1], segments, at) && Trim(parts[|parts| - 1]) != ""
    ensures Picks(parts, segments + [Trim(parts[|parts| - 1])], at + [|parts| - 1])
  {
    hide Trim;
    var n := |parts| - 1;
    assert forall k: nat :: k < |at| ==> IsAt(at, k, at[k]) && at[k] < n;
    forall i: nat | IsNamed(parts, i) ensures Picked(at + [n], i) {
      if i < n {
        assert IsNamed(parts[..n], i) && Picked(at, i);
        var k: nat :| IsAt(at, k, i);
        assert IsAt(at + [n], k, i);
      } else {
        assert IsAt(at + [n], |at|, i);
      }
    }
    forall k: nat, i: nat | IsAt(at + [n], k, i)
      ensures IsNamed(parts, i) && (segments + [Trim(parts[n])])[k] == Trim(parts[i])
    {
      if k < |at| { assert IsAt(at, k, i) && IsNamed(parts[..n], i); }
    }
  }

  lemma PicksNoMore(parts: seq<string>, segments: Path, at: seq<nat>)
    requires parts != [] && Picks(parts[..|parts| - 1], segments, at) && Trim(parts[|parts| - 1]) == ""
    ensures Picks(parts, segments, at)
  {
    hide Trim, Increasing;
    var n := |parts| - 1;
    forall i: nat ensures IsNamed(parts, i) <==> IsNamed(parts[..n], i) {}
  }

  lemma {:induction false} NamedPicks(parts: seq<string>) returns (at: seq<nat>)
    ensures Picks(parts, Named(parts), at)
    decreases |parts|
  {
    at := [];
    if parts != [] {
      var n := |parts| - 1;
      at := NamedPicks(parts[..n]);
      hide Picks, Trim;
      if Trim(parts[n]) != "" {
        PicksOneMore(parts, Named(parts[..n]), at);
        at := at + [n];
      } else {
        PicksNoMore(parts, Named(parts[..n]), at);
        assert Named(parts) == Named(parts[..n]) + [] == Named(parts[..n]);
      }
    }
  }

  /** Increasing sequences with the same elements are equal, place by place. */
  lemma {:induction false} SamePlaces(a: seq<nat>, b: seq<nat>, k: nat)
    requires Increasing(a) && Increasing(b) && k < |a|
    requires forall i: nat :: Picked(a, i) <==> Picked(b, i)
    ensures IsAt(b, k, a[k])
    decreases k
  {
    assert IsAt(a, k, a[k]) && Picked(a, a[k]);
    var m: nat :| IsAt(b, m, a[k]);
    if m < k {
      SamePlaces(a, b, m);
      assert false;
    } else if m > k {
      assert IsAt(b, k, b[k]) && Picked(b, b[k]);
      var l: nat :| IsAt(a, l, b[k]);
      SamePlaces(a, b, l);
      assert false;
    }
  }

  /** MAIN: the segments of a path are exactly its parts between dots that are not blank, trimmed and
      in order; nothing else is. */
  lemma SegmentsNameParts(path: string, segments: Path)
    ensures NamesParts(path, segments) <==> segments == Segments(path)
  {
    var at := NamedPicks(Split(path));
    if NamesParts(path, segments) {
      var other :| Picks(Split(path), segments, other);
      PicksOnce(Split(path), Segments(path), at, segments, other);
    }
  }

  lemma PicksOnce(parts: seq<string>, s: Path, a: seq<nat>, t: Path, b: seq<nat>)
    requires Picks(parts, s, a) && Picks(parts, t, b)
    ensures s == t
  {
    hide Trim, Increasing, IsAt;
    SameElements(parts, s, a, t, b);
    forall k: nat | k < |a| ensures IsAt(b, k, a[k]) { SamePlaces(a, b, k); }
    forall k: nat | k < |b| ensures IsAt(a, k, b[k]) { SamePlaces(b, a, k); }
    SameSegments(parts, s, a, t, b);
  }

  lemma SameElements(parts: seq<string>, s: Path, a: seq<nat>, t: Path, b: seq<nat>)
    requires Picks(parts, s, a) && Picks(parts, t, b)
    ensures forall i: nat :: Picked(a, i) <==> Picked(b, i)
  {
    hide Increasing, IsNamed, IsAt;
  }

  lemma SameSegments(parts: seq<string>, s: Path, a: seq<nat>, t: Path, b: seq<nat>)
    requires Picks(parts, s, a) && Picks(parts, t, b)
    requires forall k: nat :: k < |a| ==> IsAt(b, k, a[k])
    requires forall k: nat :: k < |b| ==> IsAt(a, k, b[k])
    ensures s == t
  {
    hide Trim, Increasing;
    assert |a| > 0 ==> IsAt(b, |a| - 1, a[|a| - 1]);
    assert |b| > 0 ==> IsAt(a, |b| - 1, b[|b| - 1]);
    forall k: nat | k < |s| ensures s[k] == t[k] {
      assert IsAt(b, k, a[k]) && IsAt(a, k, a[k]);
    }
  }

  // ----- reading and setting

  function Get(doc: Json, path: Path): Option<Json> {
    if path == [] then Some(doc)
    else if doc.Object? && path[0] in doc.fields then Get(doc.fields[path[0]], path[1..])
    else None
  }

  function ChildOrEmpty(doc: Json, key: string): Json
    requires doc.Object?
  {
    if key in doc.fields then doc.fields[key] else Object(map[])
  }

  /** The document with `value` at the path, missing parents added; nothing if a parent is a leaf. */
  function Set(doc: Json, path: Path, value: Json): Option<Json>
    requires path != []
    decreases |path|
  {
    if doc.Leaf? then None
    else if |path| == 1 then Some(Object(doc.fields[path[0] := value]))
    else match Set(ChildOrEmpty(doc, path[0]), path[1..], value)
      case None => None
      case Some(child) => Some(Object(doc.fields[path[0] := child]))
  }

  /** Some proper prefix of the path reads a leaf. */
  ghost predicate Blocked(doc: Json, path: Path) {
    exists k :: 0 <= k < |path| && LeafAt(doc, path[..k])
  }

  predicate LeafAt(doc: Json, path: Path) {
    var found := Get(doc, path);
    found.Some? && found.value.Leaf?
  }

  lemma LeafBelow(doc: Json, path: Path, k: nat)
    requires doc.Object? && 0 < k <= |path|
    ensures LeafAt(doc, path[..k]) <==> path[0] in doc.fields && LeafAt(doc.fields[path[0]], path[1..][..k - 1])
  {
    assert path[..k][0] == path[0] && path[..k][1..] == path[1..][..k - 1];
  }

  /** MAIN: setting fails exactly when a proper prefix of the path reads a value that is no object. */
  lemma {:induction false} SetFailsExactly(doc: Json, path: Path, value: Json)
    requires path != []
    ensures Set(doc, path, value).None? <==> Blocked(doc, path)
    decreases |path|
  {
    if doc.Leaf? {
      assert path[..0] == [];
      assert LeafAt(doc, path[..0]);
    } else {
      assert path[..0] == [];
      if |path| > 1 {
        SetFailsExactly(ChildOrEmpty(doc, path[0]), path[1..], value);
        BlockedBelow(doc, path);
      }
    }
  }

  lemma BlockedBelow(doc: Json, path: Path)
    requires doc.Object? && |path| > 1
    ensures Blocked(doc, path) <==> Blocked(ChildOrEmpty(doc, path[0]), path[1..])
  {
    assert path[..0] == [];
    forall k | 0 < k < |path|
      ensures LeafAt(doc, path[..k]) <==> path[0] in doc.fields && LeafAt(doc.fields[path[0]], path[1..][..k - 1])
    {
      LeafBelow(doc, path, k);
    }
    if Blocked(doc, path) {
      var k :| 0 <= k < |path| && LeafAt(doc, path[..k]);
      assert LeafAt(ChildOrEmpty(doc, path[0]), path[1..][..k - 1]);
    }
    if Blocked(ChildOrEmpty(doc, path[0]), path[1..]) {
      var k :| 0 <= k < |path[1..]| && LeafAt(ChildOrEmpty(doc, path[0]), path[1..][..k]);
      NothingBelowEmpty(path[1..][..k]);
      assert LeafAt(doc, path[..k + 1]);
    }
  }

  lemma NothingBelowEmpty(path: Path)
    ensures !LeafAt(Object(map[]), path)
  {
  }

  /** MAIN: after setting, the path reads the value, and every path that is neither a prefix nor an
      extension of it reads as before. */
  lemma {:induction false} SetThenGet(doc: Json, path: Path, value: Json, other: Path)
    requires path != [] && Set(doc, path, value).Some?
    ensures Get(Set(doc, path, value).value, path) == Some(value)
    ensures !(other <= path) && !(path <= other) ==> Get(Set(doc, path, value).value, other) == Get(doc, other)
    decreases |path|
  {
    var after := Set(doc, path, value).value;
    if |path| == 1 {
      assert path[1..] == [];
      if other != [] && other[0] == path[0] { assert path <= other; }
    } else {
      var child := ChildOrEmpty(doc, path[0]);
      SetThenGet(child, path[1..], value, if other == [] then [] else other[1..]);
      if other != [] && other[0] == path[0] {
        SameHead(path, other);
        if path[0] !in doc.fields && !(other <= path) { assert other[1..] != []; }
      }
    }
  }

  lemma SameHead(path: Path, other: Path)
    requires path != [] && other != [] && path[0] == other[0]
    ensures other <= path <==> other[1..] <= path[1..]
    ensures path <= other <==> path[1..] <= other[1..]
  {
    if other[1..] <= path[1..] {
      forall i | 0 <= i < |other| ensures other[i] == path[i] {
        if i > 0 { assert other[i] == other[1..][i - 1] && path[i] == path[1..][i - 1]; }
      }
    }
    if path[1..] <= other[1..] {
      forall i | 0 <= i < |path| ensures other[i] == path[i] {
        if i > 0 { assert other[i] == other[1..][i - 1] && path[i] == path[1..][i - 1]; }
      }
    }
  }

  /** Setting what is already there changes nothing, and the last of two settings wins. */
  lemma {:induction false} SetLaws(doc: Json, path: Path, value: Json, next: Json)
    requires path != []
    ensures Get(doc, path) == Some(value) ==> Set(doc, path, value) == Some(doc)
    ensures Set(doc, path, value).Some? ==> Set(Set(doc, path, value).value, path, next) == Set(doc, path, next)
    ensures Set(doc, path, value).None? <==> Set(doc, path, next).None?
    decreases |path|
  {
    if doc.Object? {
      if |path| == 1 {
        assert path[1..] == [];
        if path[0] in doc.fields { assert Get(doc, path) == Get(doc.fields[path[0]], []) == Some(doc.fields[path[0]]); }
        if Get(doc, path) == Some(value) { assert doc.fields[path[0] := value] == doc.fields; }
        assert doc.fields[path[0] := value][path[0] := next] == doc.fields[path[0] := next];
      } else {
        var child := ChildOrEmpty(doc, path[0]);
        SetLaws(child, path[1..], value, next);
        if Get(doc, path) == Some(value) { assert doc.fields[path[0] := child] == doc.fields; }
        if Set(child, path[1..], value).Some? && Set(child, path[1..], next).Some? {
          var a, b := Set(child, path[1..], value).value, Set(child, path[1..], next).value;
          assert doc.fields[path[0] := a][path[0] := b] == doc.fields[path[0] := b];
        }
      }
    }
  }

  // ----- the walk with a cursor

  /** Where the cursor came from: the objects above it and the key followed in each. */
  datatype Above = Above(fields: map<string, Json>, key: string)

  function Plug(above: seq<Above>, doc: Json): Json {
    if above == [] then doc
    else
      var last := above[|above| - 1];
      Plug(above[..|above| - 1], Object(last.fields[last.key := doc]))
  }

  datatype Outcome = Inserted | EmptyPath | NotAnObject

  ghost predicate Walks(doc: Json, path: Path, value: Json, above: seq<Above>, cursor: Json, rest: Path)
    requires path != [] && rest != []
  {
    match Set(cursor, rest, value)
    case None => Set(doc, path, value) == None
    case Some(done) => Set(doc, path, value) == Some(Plug(above, done))
  }

  /** `insert_json_path`. The cursor walks down and adds missing parents on the way; what is above it
      stays attached. If the walk fails the document is as it was. */
  method InsertPath(doc: Json, path: string, value: Json) returns (result: Json, outcome: Outcome)
    ensures NamesParts(path, Segments(path))
    ensures forall segments :: NamesParts(path, segments) ==>
              && (outcome == EmptyPath <==> segments == [])
              && (outcome == NotAnObject <==> segments != [] && Blocked(doc, segments))
              && (outcome == Inserted ==> Set(doc, segments, value) == Some(result) &&
                                          Placed(doc, segments, value, result))
    ensures outcome != Inserted ==> result == doc
  {
    hide Segments, NamesParts, Set, Blocked, Walks, Placed;
    var segments := Segments(path);
    forall s ensures NamesParts(path, s) <==> s == segments { SegmentsNameParts(path, s); }
    if segments == [] { return doc, EmptyPath; }
    SetFailsExactly(doc, segments, value);
    var cursor, above := doc, [];
    WalkStarts(doc, segments, value);
    var i := 0;
    while i < |segments| - 1
      invariant 0 <= i < |segments|
      invariant Walks(doc, segments, value, above, cursor, segments[i..])
      invariant Plug(above, cursor) == doc || cursor == Object(map[])
    {
      if cursor.Leaf? {
        WalkBlocked(doc, segments, value, above, cursor, i);
        return Plug(above, cursor), NotAnObject;
      }
      WalksDown(doc, segments, value, above, cursor, i);
      var fields := cursor.fields;
      if segments[i] in fields {
        StaysAttached(above, cursor, segments[i]);
      } else {
        fields := fields[segments[i] := Object(map[])];
      }
      above, cursor := above + [Above(fields, segments[i])], fields[segments[i]];
      i := i + 1;
    }
    if cursor.Leaf? {
      WalkBlocked(doc, segments, value, above, cursor, i);
      return Plug(above, cursor), NotAnObject;
    }
    WalkEnds(doc, segments, value, above, cursor, i);
    result := Plug(above, Object(cursor.fields[segments[i] := value]));
    outcome := Inserted;
    SetPlaces(doc, segments, value);
  }

  /** The path reads the value, and every path beside it reads as before. */
  ghost predicate Placed(doc: Json, path: Path, value: Json, after: Json) {
    && Get(after, path) == Some(value)
    && forall other: Path :: !(other <= path) && !(path <= other) ==> Get(after, other) == Get(doc, other)
  }

  lemma SetPlaces(doc: Json, path: Path, value: Json)
    requires path != [] && Set(doc, path, value).Some?
    ensures Placed(doc, path, value, Set(doc, path, value).value)
  {
    forall other: Path | !(other <= path) && !(path <= other)
      ensures Get(Set(doc, path, value).value, other) == Get(doc, other)
    {
      SetThenGet(doc, path, value, other);
    }
    SetThenGet(doc, path, value, []);
  }

  lemma WalkStarts(doc: Json, path: Path, value: Json)
    requires path != []
    ensures Walks(doc, path, value, [], doc, path[0..])
  {
    assert path[0..] == path;
  }

  lemma WalkBlocked(doc: Json, path: Path, value: Json, above: seq<Above>, cursor: Json, i: nat)
    requires i < |path| && cursor.Leaf? && Walks(doc, path, value, above, cursor, path[i..])
    ensures Set(doc, path, value) == None
  {
  }

  lemma WalkEnds(doc: Json, path: Path, value: Json, above: seq<Above>, cursor: Json, i: nat)
    requires i == |path| - 1 && cursor.Object? && Walks(doc, path, value, above, cursor, path[i..])
    ensures Set(doc, path, value) == Some(Plug(above, Object(cursor.fields[path[i] := value])))
  {
  }

  lemma PlugLast(above: seq<Above>, last: Above, doc: Json)
    ensures Plug(above + [last], doc) == Plug(above, Object(last.fields[last.key := doc]))
  {
    assert (above + [last])[..|above|] == above;
  }

  lemma StaysAttached(above: seq<Above>, cursor: Json, key: string)
    requires cursor.Object? && key in cursor.fields
    ensures Plug(above + [Above(cursor.fields, key)], cursor.fields[key]) == Plug(above, cursor)
  {
    PlugLast(above, Above(cursor.fields, key), cursor.fields[key]);
    assert cursor.fields[key := cursor.fields[key]] == cursor.fields;
  }

  lemma WalksDown(doc: Json, path: Path, value: Json, above: seq<Above>, cursor: Json, i: nat)
    requires i < |path| - 1 && cursor.Object? && Walks(doc, path, value, above, cursor, path[i..])
    ensures var fields := if path[i] in cursor.fields then cursor.fields else cursor.fields[path[i] := Object(map[])];
            Walks(doc, path, value, above + [Above(fields, path[i])], fields[path[i]], path[i + 1..])
  {
    var fields := if path[i] in cursor.fields then cursor.fields else cursor.fields[path[i] := Object(map[])];
    var child := fields[path[i]];
    assert path[i..][1..] == path[i + 1..] && child == ChildOrEmpty(cursor, path[i]);
    if Set(child, path[i + 1..], value).Some? {
      var done := Set(child, path[i + 1..], value).value;
      PlugLast(above, Above(fields, path[i]), done);
      assert fields[path[i] := done] == cursor.fields[path[i] := done];
    }
  }
}
