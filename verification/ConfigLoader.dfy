/** Where configuration comes from: a file, the environment and overrides, by the keys that name their fields. */
module ConfigLoaders {
  import opened Wrappers
  import opened Texts
  import opened LayeredConfig
  import opened Sorting

  /** A variable of the environment, and its text. */
  type Variable = (string, string)

  /** An override by its dotted key; without a value the field is unset. */
  datatype Change = Change(key: string, value: Option<string>)

  /** What a text stands for, or that it is too long. */
  type Parser = string -> Option<Value>

  // ----- keys

  /** The pieces of a text between the marks, the leftmost first. */
  function Split(s: string, mark: string): (r: seq<string>)
    requires mark != ""
    ensures r != []
    decreases |s|
  {
    if s == "" then [""]
    else if mark <= s then [""] + Split(s[|mark|..], mark)
    else
      var rest := Split(s[1..], mark);
      [[s[0]] + rest[0]] + rest[1..]
  }

  predicate VariableChar(c: char) {
    'A' <= c <= 'Z' || '0' <= c <= '9' || c == '_'
  }

  predicate KeyChar(c: char) {
    'a' <= c <= 'z' || 'A' <= c <= 'Z' || '0' <= c <= '9' || c == '_'
  }

  predicate VariablePiece(s: string) {
    s != "" && forall i :: 0 <= i < |s| ==> VariableChar(s[i])
  }

  predicate KeyPiece(s: string) {
    s != "" && forall i :: 0 <= i < |s| ==> KeyChar(s[i])
  }

  /** The field that a variable names, its prefix taken away. */
  function EnvironmentPath(key: string): Option<Path> {
    var pieces := Split(key, "__");
    if key == "" || exists i :: 0 <= i < |pieces| && !VariablePiece(pieces[i]) then None
    else Some(LoweredAll(pieces))
  }

  function LoweredAll(pieces: seq<string>): Path {
    seq(|pieces|, i requires 0 <= i < |pieces| => Lowered(pieces[i]))
  }

  /** The field that an override names. */
  function OverridePath(key: string): Option<Path> {
    var pieces := Split(key, ".");
    if key == "" || exists i :: 0 <= i < |pieces| && !KeyPiece(pieces[i]) then None else Some(pieces)
  }

  method EnvironmentSegments(key: string) returns (r: Option<Path>)
    ensures r == EnvironmentPath(key)
  {
    if key == "" {
      return None;
    }
    var segments: Path := [];
    var pieces := Split(key, "__");
    for i := 0 to |pieces|
      invariant forall j :: 0 <= j < i ==> VariablePiece(pieces[j])
      invariant |segments| == i && forall j :: 0 <= j < i ==> segments[j] == Lowered(pieces[j])
    {
      if !VariablePiece(pieces[i]) {
        return None;
      }
      segments := segments + [Lowered(pieces[i])];
    }
    assert segments == LoweredAll(pieces);
    return Some(segments);
  }

  method DottedSegments(key: string) returns (r: Option<Path>)
    ensures r == OverridePath(key)
  {
    if key == "" {
      return None;
    }
    var segments: Path := [];
    var pieces := Split(key, ".");
    for i := 0 to |pieces|
      invariant forall j :: 0 <= j < i ==> KeyPiece(pieces[j])
      invariant segments == pieces[..i]
    {
      if !KeyPiece(pieces[i]) {
        return None;
      }
      segments := segments + [pieces[i]];
    }
    assert pieces[..|pieces|] == pieces;
    return Some(segments);
  }

  // ----- which keys name which fields

  function Joined(pieces: seq<string>, mark: string): string
    requires pieces != []
  {
    if |pieces| == 1 then pieces[0] else pieces[0] + mark + Joined(pieces[1..], mark)
  }

  /** No mark stands in a piece. */
  predicate Free(piece: string, mark: string) {
    forall i :: 0 <= i <= |piece| ==> !(mark <= piece[i..])
  }

  /** The first mark of a piece followed by one is the one behind it. */
  predicate Ends(piece: string, mark: string) {
    forall i :: 0 <= i < |piece| ==> !(mark <= (piece + mark)[i..])
  }

  predicate Cut(pieces: seq<string>, mark: string) {
    && pieces != [] && Free(pieces[|pieces| - 1], mark)
    && forall i :: 0 <= i < |pieces| - 1 ==> Ends(pieces[i], mark)
  }

  /** A text is split into the pieces that make it, each up to the first mark behind its start. */
  lemma SplitIff(s: string, mark: string, pieces: seq<string>)
    requires mark != ""
    ensures Split(s, mark) == pieces <==> Cut(pieces, mark) && Joined(pieces, mark) == s
  {
    SplitMakes(s, mark);
    if Cut(pieces, mark) && Joined(pieces, mark) == s {
      JoinedSplits(pieces, mark);
    }
  }

  lemma {:induction false} SplitMakes(s: string, mark: string)
    requires mark != ""
    ensures Cut(Split(s, mark), mark) && Joined(Split(s, mark), mark) == s
    decreases |s|
  {
    hide Cut, Joined;
    if s == "" {
      OneIsCut(mark);
    } else if mark <= s {
      SplitMakes(s[|mark|..], mark);
      EmptyFirst(Split(s[|mark|..], mark), mark, s);
    } else {
      SplitMakes(s[1..], mark);
      FirstLonger(s[0], Split(s[1..], mark), mark, s);
    }
  }

  lemma OneIsCut(mark: string)
    requires mark != ""
    ensures Cut([""], mark) && Joined([""], mark) == ""
  {
  }

  lemma EmptyFirst(rest: seq<string>, mark: string, s: string)
    requires Cut(rest, mark) && mark <= s && Joined(rest, mark) == s[|mark|..]
    ensures Cut([""] + rest, mark) && Joined([""] + rest, mark) == s
  {
    assert Ends("", mark);
    hide Cut, Free, Ends, Joined;
    CutLonger("", rest, mark);
    JoinedBehind(rest, mark);
    MarkInFront(mark, s);
  }

  lemma JoinedBehind(rest: seq<string>, mark: string)
    requires rest != []
    ensures Joined([""] + rest, mark) == mark + Joined(rest, mark)
  {
    assert ([""] + rest)[1..] == rest;
    assert "" + mark == mark;
  }

  lemma MarkInFront(mark: string, s: string)
    requires mark <= s
    ensures mark + s[|mark|..] == s
  {
  }

  lemma CutLonger(piece: string, rest: seq<string>, mark: string)
    requires Cut(rest, mark) && Ends(piece, mark)
    ensures Cut([piece] + rest, mark)
  {
    hide Free, Ends;
    var all := [piece] + rest;
    forall i | 0 <= i < |all| - 1 ensures Ends(all[i], mark) {
      assert i > 0 ==> all[i] == rest[i - 1];
    }
  }

  lemma FirstLonger(c: char, rest: seq<string>, mark: string, s: string)
    requires mark != "" && Cut(rest, mark) && s == [c] + Joined(rest, mark) && !(mark <= s)
    ensures var all := [[c] + rest[0]] + rest[1..]; Cut(all, mark) && Joined(all, mark) == s
  {
    hide Free, Ends;
    var first, all := [c] + rest[0], [[c] + rest[0]] + rest[1..];
    assert all[1..] == rest[1..];
    if |rest| == 1 {
      FreeLonger(c, rest[0], mark);
    } else {
      assert first + mark + Joined(rest[1..], mark) == s;
      assert !(mark <= first + mark) by { BeginsLonger(mark, first + mark, s); }
      EndsLonger(c, rest[0], mark);
      forall i | 0 <= i < |all| - 1 ensures Ends(all[i], mark) {
        assert i > 0 ==> all[i] == rest[i];
      }
    }
  }

  lemma BeginsLonger(mark: string, front: string, s: string)
    requires front <= s
    ensures mark <= front ==> mark <= s
  {
  }

  lemma FreeLonger(c: char, piece: string, mark: string)
    requires Free(piece, mark) && !(mark <= [c] + piece)
    ensures Free([c] + piece, mark)
  {
    var first := [c] + piece;
    forall i | 0 <= i <= |first| ensures !(mark <= first[i..]) {
      assert i > 0 ==> first[i..] == piece[i - 1..];
      assert first[0..] == first;
    }
  }

  lemma EndsLonger(c: char, piece: string, mark: string)
    requires Ends(piece, mark) && !(mark <= [c] + piece + mark)
    ensures Ends([c] + piece, mark)
  {
    var first := [c] + piece;
    forall i | 0 <= i < |first| ensures !(mark <= (first + mark)[i..]) {
      assert i > 0 ==> (first + mark)[i..] == (piece + mark)[i - 1..];
      assert (first + mark)[0..] == first + mark;
    }
  }

  lemma {:induction false} JoinedSplits(pieces: seq<string>, mark: string)
    requires mark != "" && Cut(pieces, mark)
    ensures Split(Joined(pieces, mark), mark) == pieces
    decreases |pieces|, |pieces[0]|
  {
    var s, piece := Joined(pieces, mark), pieces[0];
    if piece == "" {
      if |pieces| > 1 {
        assert s == mark + Joined(pieces[1..], mark);
        assert s[|mark|..] == Joined(pieces[1..], mark);
        JoinedSplits(pieces[1..], mark);
      }
    } else {
      var shorter := [piece[1..]] + pieces[1..];
      assert shorter[1..] == pieces[1..];
      assert Joined(shorter, mark) == s[1..];
      CutShorter(pieces, mark);
      JoinedSplits(shorter, mark);
      NoMarkYet(pieces, mark);
      assert s[0] == piece[0] && piece == [piece[0]] + piece[1..];
      assert Split(s, mark) == [[s[0]] + shorter[0]] + shorter[1..];
    }
  }

  lemma CutShorter(pieces: seq<string>, mark: string)
    requires Cut(pieces, mark) && pieces[0] != ""
    ensures Cut([pieces[0][1..]] + pieces[1..], mark)
  {
    var piece := pieces[0];
    var shorter := [piece[1..]] + pieces[1..];
    if |pieces| == 1 {
      forall i | 0 <= i <= |piece| - 1 ensures !(mark <= piece[1..][i..]) {
        assert piece[1..][i..] == piece[i + 1..];
      }
    } else {
      forall i | 0 <= i < |piece| - 1 ensures !(mark <= (piece[1..] + mark)[i..]) {
        assert (piece[1..] + mark)[i..] == (piece + mark)[i + 1..];
      }
      forall i | 0 <= i < |shorter| - 1 ensures Ends(shorter[i], mark) {
        assert i > 0 ==> shorter[i] == pieces[i];
      }
    }
  }

  lemma NoMarkYet(pieces: seq<string>, mark: string)
    requires Cut(pieces, mark) && pieces[0] != ""
    ensures !(mark <= Joined(pieces, mark))
  {
    var piece := pieces[0];
    if |pieces| == 1 {
      assert piece[0..] == piece;
    } else {
      assert piece + mark <= Joined(pieces, mark);
      assert (piece + mark)[0..] == piece + mark;
    }
  }

  function Upper(c: char): char {
    if 'a' <= c <= 'z' then (c as int - 32) as char else c
  }

  function Raised(s: string): string {
    seq(|s|, i requires 0 <= i < |s| => Upper(s[i]))
  }

  function RaisedAll(path: Path): seq<string> {
    seq(|path|, i requires 0 <= i < |path| => Raised(path[i]))
  }

  predicate FieldPiece(s: string) {
    s != "" && forall i :: 0 <= i < |s| ==> 'a' <= s[i] <= 'z' || '0' <= s[i] <= '9' || s[i] == '_'
  }

  /** A field that a variable can name: no capital letter, and no place where its name could be cut. */
  predicate Nameable(path: Path) {
    && path != [] && (forall i :: 0 <= i < |path| ==> FieldPiece(path[i]))
    && (forall i, j :: 0 <= i < |path| && 0 <= j < |path[i]| - 1 ==> path[i][j] != '_' || path[i][j + 1] != '_')
    && (forall i :: 0 <= i < |path| - 1 ==> path[i][|path[i]| - 1] != '_')
  }

  /** A variable names a field exactly when it is the field's keys in capitals with two underscores between them. */
  lemma EnvironmentPathIff(key: string, path: Path)
    ensures EnvironmentPath(key) == Some(path) <==> Nameable(path) && Joined(RaisedAll(path), "__") == key
  {
    hide Split, Joined, Lowered, Raised;
    var pieces := Split(key, "__");
    SplitIff(key, "__", pieces);
    if EnvironmentPath(key) == Some(path) {
      forall i | 0 <= i < |path| ensures RaisedAll(path)[i] == pieces[i] && FieldPiece(path[i]) {
        assert VariablePiece(pieces[i]);
        RaisedLowered(pieces[i]);
      }
      assert RaisedAll(path) == pieces;
      CutIsNameable(path);
    } else if Nameable(path) && Joined(RaisedAll(path), "__") == key {
      CutIsNameable(path);
      SplitIff(key, "__", RaisedAll(path));
      forall i | 0 <= i < |path| ensures Lowered(pieces[i]) == path[i] && VariablePiece(pieces[i]) {
        LoweredRaised(path[i]);
      }
      assert LoweredAll(pieces) == path;
      JoinedNonempty(pieces, "__");
    }
  }

  lemma JoinedNonempty(pieces: seq<string>, mark: string)
    requires pieces != [] && pieces[0] != ""
    ensures Joined(pieces, mark) != ""
  {
  }

  lemma RaisedLowered(s: string)
    requires VariablePiece(s)
    ensures Raised(Lowered(s)) == s && FieldPiece(Lowered(s))
  {
  }

  lemma LoweredRaised(s: string)
    requires FieldPiece(s)
    ensures Lowered(Raised(s)) == s && VariablePiece(Raised(s))
  {
  }

  lemma Underscores(s: string, i: nat)
    requires i <= |s|
    ensures "__" <= s[i..] <==> i + 1 < |s| && s[i] == '_' && s[i + 1] == '_'
  {
    if i + 1 < |s| {
      assert s[i..][..2] == [s[i], s[i + 1]];
    }
  }

  predicate TwoUnderscores(s: string, i: nat) {
    i + 1 < |s| && s[i] == '_' && s[i + 1] == '_'
  }

  lemma RaisedCut(piece: string)
    requires piece != ""
    ensures Free(Raised(piece), "__") <==> forall i :: 0 <= i < |piece| ==> !TwoUnderscores(piece, i)
    ensures Ends(Raised(piece), "__") <==>
      piece[|piece| - 1] != '_' && forall i :: 0 <= i < |piece| ==> !TwoUnderscores(piece, i)
  {
    var raised := Raised(piece);
    forall i | 0 <= i <= |raised|
      ensures "__" <= raised[i..] <==> TwoUnderscores(piece, i)
      ensures i < |raised| ==>
        ("__" <= (raised + "__")[i..] <==> TwoUnderscores(piece, i) || (i == |piece| - 1 && piece[i] == '_'))
    {
      Underscores(raised, i);
      Underscores(raised + "__", i);
    }
  }

  lemma CutIsNameable(path: Path)
    requires path != [] && forall i :: 0 <= i < |path| ==> FieldPiece(path[i])
    ensures Cut(RaisedAll(path), "__") <==> Nameable(path)
  {
    hide Free, Ends, Raised;
    forall i | 0 <= i < |path|
      ensures Free(RaisedAll(path)[i], "__") <==> forall k :: 0 <= k < |path[i]| ==> !TwoUnderscores(path[i], k)
      ensures Ends(RaisedAll(path)[i], "__") <==>
        path[i][|path[i]| - 1] != '_' && forall k :: 0 <= k < |path[i]| ==> !TwoUnderscores(path[i], k)
    {
      RaisedCut(path[i]);
    }
    if Cut(RaisedAll(path), "__") {
      forall i, j | 0 <= i < |path| && 0 <= j < |path[i]| - 1 ensures path[i][j] != '_' || path[i][j + 1] != '_' {
        assert !TwoUnderscores(path[i], j);
      }
    }
  }

  /** An override names a field exactly when it is written as provenance writes it. */
  lemma OverridePathIff(key: string, path: Path)
    ensures OverridePath(key) == Some(path) <==>
      path != [] && Dotted(path) == key && forall i :: 0 <= i < |path| ==>
        path[i] != "" && forall j :: 0 <= j < |path[i]| ==> var c := path[i][j];
          'a' <= c <= 'z' || 'A' <= c <= 'Z' || '0' <= c <= '9' || c == '_'
  {
    hide Split, Joined, Dotted;
    forall i | 0 <= i < |path|
      ensures KeyPiece(path[i]) <==>
        path[i] != "" && forall j :: 0 <= j < |path[i]| ==> var c := path[i][j];
          'a' <= c <= 'z' || 'A' <= c <= 'Z' || '0' <= c <= '9' || c == '_'
    {
    }
    SplitIff(key, ".", path);
    if path != [] && forall i :: 0 <= i < |path| ==> KeyPiece(path[i]) {
      forall i | 0 <= i < |path| ensures Free(path[i], ".") && Ends(path[i], ".") && path[i] != "" {
        KeyCut(path[i]);
      }
      JoinedIsDotted(path);
      DottedShape(path);
    }
  }

  lemma KeyCut(s: string)
    requires KeyPiece(s)
    ensures Free(s, ".") && Ends(s, ".")
  {
    forall i | 0 <= i < |s| ensures !("." <= s[i..]) && !("." <= (s + ".")[i..]) {
      assert KeyChar(s[i]) && s[i..][0] == s[i] && (s + ".")[i..][0] == s[i];
    }
  }

  lemma JoinedIsDotted(path: Path)
    requires path != [] && forall i :: 0 <= i < |path| ==> path[i] != ""
    ensures Joined(path, ".") == Dotted(path)
  {
    var first, rest := path[..1], path[1..];
    ExtendDotted(first, rest);
    assert first + rest == path && Dotted(first) == path[0] by {
      assert first[..0] == [] && first[0] == path[0];
    }
    ExtendJoined(path[0], rest);
  }

  lemma {:induction false} ExtendJoined(name: string, path: Path)
    requires name != "" && forall i :: 0 <= i < |path| ==> path[i] != ""
    ensures Extend(name, path) == if path == [] then name else name + "." + Joined(path, ".")
    decreases |path|
  {
    if path != [] {
      ExtendJoined(JoinPath(name, path[0]), path[1..]);
    }
  }

  // ----- from sources to operations

  predicate Before(a: string, b: string)
    decreases |b|
  {
    b != "" && (a == "" || a[0] < b[0] || (a[0] == b[0] && Before(a[1..], b[1..])))
  }

  function ByName(a: Variable, b: Variable): bool {
    Before(a.0, b.0)
  }

  /** The variables under the prefix. */
  function Ours(environment: seq<Variable>, prefix: string): seq<Variable> {
    if environment == [] then []
    else (if prefix <= environment[0].0 then [environment[0]] else []) + Ours(environment[1..], prefix)
  }

  function VariableOp(v: Variable, prefix: string, parse: Parser): Option<Op> {
    if !(prefix <= v.0) then None
    else match EnvironmentPath(v.0[|prefix|..])
      case None => None
      case Some(path) =>
        match parse(v.1)
        case None => None
        case Some(value) => Some(Assign(Environment, v.0, path, value))
  }

  /** What an override puts at its path. */
  function Given(c: Change, parse: Parser): Option<Value> {
    if c.value.None? then Some(Leaf(Null)) else parse(c.value.value)
  }

  function ChangeOp(c: Change, parse: Parser): Option<Op> {
    match OverridePath(c.key)
    case None => None
    case Some(path) =>
      match Given(c, parse)
      case None => None
      case Some(value) => Some(Assign(Override, c.key, path, value))
  }

  function Items(file: Option<Value>, variables: seq<Variable>, overrides: seq<Change>, prefix: string, parse: Parser)
    : seq<Option<Op>>
  {
    (if file.Some? then [Some(FileLayer(file.value))] else [])
    + seq(|variables|, i requires 0 <= i < |variables| => VariableOp(variables[i], prefix, parse))
    + seq(|overrides|, i requires 0 <= i < |overrides| => ChangeOp(overrides[i], parse))
  }

  /** The tree and its origins once every operation is done, if each can be. */
  function Applied(defaults: Value, items: seq<Option<Op>>): Option<State>
    decreases |items|
  {
    if items == [] then Some(Begin(defaults))
    else match Applied(defaults, items[..|items| - 1])
      case None => None
      case Some(t) =>
        match items[|items| - 1]
        case None => None
        case Some(op) => Step(t, op)
  }

  function Load(defaults: Value, file: Option<Value>, environment: seq<Variable>, overrides: seq<Change>,
    prefix: string, parse: Parser): Option<State>
  {
    Applied(defaults, Items(file, Sorted(ByName, Ours(environment, prefix)), overrides, prefix, parse))
  }

  lemma {:induction false} AppliedStops(defaults: Value, items: seq<Option<Op>>, n: nat)
    requires n <= |items| && Applied(defaults, items[..n]) == None
    ensures Applied(defaults, items) == None
    decreases |items|
  {
    if n == |items| {
      assert items[..n] == items;
    } else {
      assert items[..|items| - 1][..n] == items[..n];
      AppliedStops(defaults, items[..|items| - 1], n);
    }
  }

  lemma AppliedOne(defaults: Value, items: seq<Option<Op>>, n: nat)
    requires n < |items|
    ensures Applied(defaults, items[..n + 1]) ==
      match Applied(defaults, items[..n])
      case None => None
      case Some(t) =>
        match items[n]
        case None => None
        case Some(op) => Step(t, op)
  {
    assert items[..n + 1][..n] == items[..n];
  }

  /** Defaults, file, environment in the order of its names, and overrides, each over what is there. */
  method ResolveWithEnvironment(defaults: Value, file: Option<Value>, environment: seq<Variable>,
    overrides: seq<Change>, prefix: string, parse: Parser) returns (r: Option<State>)
    ensures r == Load(defaults, file, environment, overrides, prefix, parse)
  {
    hide Applied, Step, EnvironmentPath, OverridePath, Sorted, Ours, Items, Recorded, Merge, SetPath, Dotted;
    var merged, provenance := defaults, map[];
    provenance := RecordLeaves(defaults, "", Layer(Default, None), provenance);
    var variables := InsertionSort(ByName, Ours(environment, prefix));
    ghost var items := Items(file, variables, overrides, prefix, parse);
    ghost var n := 0;
    ItemsLength(file, variables, overrides, prefix, parse);
    AppliedNone(defaults, items[..0]);
    if file.Some? {
      AppliedOne(defaults, items, 0);
      ItemAt(file, variables, overrides, prefix, parse, 0);
      StepFile(State(merged, provenance), file.value);
      merged, provenance := MergeValues(merged, file.value, "", Layer(File, None), provenance);
      n := 1;
    }
    for i := 0 to |variables|
      invariant n == i + (if file.Some? then 1 else 0)
      invariant Applied(defaults, items[..n]) == Some(State(merged, provenance))
    {
      AppliedOne(defaults, items, n);
      ItemAt(file, variables, overrides, prefix, parse, n);
      AllOurs(environment, prefix, variables[i]);
      var segments := EnvironmentSegments(variables[i].0[|prefix|..]);
      var value := parse(variables[i].1);
      n := n + 1;
      if segments.None? || value.None? {
        AppliedStops(defaults, items, n);
        return None;
      }
      StepAssign(State(merged, provenance), Environment, variables[i].0, segments.value, value.value);
      var tree;
      tree, provenance := SetField(merged, segments.value, value.value, Layer(Environment, Some(variables[i].0)),
        provenance);
      if tree.None? {
        AppliedStops(defaults, items, n);
        return None;
      }
      merged := tree.value;
    }
    for i := 0 to |overrides|
      invariant n == i + |variables| + (if file.Some? then 1 else 0)
      invariant Applied(defaults, items[..n]) == Some(State(merged, provenance))
    {
      AppliedOne(defaults, items, n);
      ItemAt(file, variables, overrides, prefix, parse, n);
      var segments := DottedSegments(overrides[i].key);
      var value := if overrides[i].value.Some? then parse(overrides[i].value.value) else Some(Leaf(Null));
      n := n + 1;
      if segments.None? || value.None? {
        AppliedStops(defaults, items, n);
        return None;
      }
      StepAssign(State(merged, provenance), Override, overrides[i].key, segments.value, value.value);
      var tree;
      tree, provenance := SetField(merged, segments.value, value.value, Layer(Override, Some(overrides[i].key)),
        provenance);
      if tree.None? {
        AppliedStops(defaults, items, n);
        return None;
      }
      merged := tree.value;
    }
    assert items[..n] == items;
    return Some(State(merged, provenance));
  }

  lemma AppliedNone(defaults: Value, items: seq<Option<Op>>)
    requires items == []
    ensures Applied(defaults, items) == Some(State(defaults, Recorded(map[], defaults, "", Layer(Default, None))))
  {
  }

  lemma StepFile(s: State, table: Value)
    ensures Step(s, FileLayer(table)) ==
      Some(State(Merge(s.tree, table), Recorded(s.provenance, table, "", Layer(File, None))))
  {
  }

  lemma StepAssign(s: State, source: Source, key: string, path: Path, value: Value)
    ensures Step(s, Assign(source, key, path, value)) ==
      var tree := SetPath(s.tree, path, value);
      if tree.None? then None
      else Some(State(tree.value, Recorded(s.provenance, value, Dotted(path), Layer(source, Some(key)))))
  {
  }

  lemma {:induction false} OursMeaning(environment: seq<Variable>, prefix: string, v: Variable)
    ensures multiset(Ours(environment, prefix))[v] == if prefix <= v.0 then multiset(environment)[v] else 0
  {
    if environment != [] {
      assert environment == [environment[0]] + environment[1..];
      OursMeaning(environment[1..], prefix, v);
    }
  }

  lemma AllOurs(environment: seq<Variable>, prefix: string, v: Variable)
    requires v in Sorted(ByName, Ours(environment, prefix))
    ensures prefix <= v.0 && v in environment
  {
    hide Ours, Sorted;
    OursMeaning(environment, prefix, v);
    assert v in multiset(Sorted(ByName, Ours(environment, prefix)));
  }

  // ----- the order of names

  /** The first place where two names differ tells them apart, and a name stands before what it begins. */
  predicate Differs(a: string, b: string, n: nat) {
    n <= |a| && n < |b| && a[..n] == b[..n] && (n == |a| || a[n] < b[n])
  }

  lemma SameFirst(a: string, b: string, n: nat)
    requires Differs(a, b, n) && n > 0
    ensures a != "" && a[0] == b[0]
  {
    assert a[..n][0] == b[..n][0];
  }

  lemma {:induction false} BeforeIff(a: string, b: string)
    ensures Before(a, b) <==> exists n: nat :: Differs(a, b, n)
    decreases |b|
  {
    if a != "" && b != "" && a[0] == b[0] {
      BeforeIff(a[1..], b[1..]);
      assert a == [a[0]] + a[1..] && b == [b[0]] + b[1..];
      forall n: nat ensures Differs(a[1..], b[1..], n) <==> Differs(a, b, n + 1) {
        if n <= |a| - 1 && n < |b| - 1 {
          assert a[..n + 1] == [a[0]] + a[1..][..n] && b[..n + 1] == [b[0]] + b[1..][..n];
          assert a[1..][..n] == a[..n + 1][1..] && b[1..][..n] == b[..n + 1][1..];
        }
      }
      if n: nat :| Differs(a, b, n) {
        assert n > 0;
        assert Differs(a[1..], b[1..], n - 1);
      }
    } else if b != "" {
      assert a == "" || a[0] < b[0] ==> Differs(a, b, 0);
      if a != "" && exists n: nat :: Differs(a, b, n) {
        var n: nat :| Differs(a, b, n);
        if n > 0 {
          SameFirst(a, b, n);
          assert false;
        }
      }
    }
  }

  lemma {:induction false} BeforeTransitive(a: string, b: string, c: string)
    requires Before(a, b) && Before(b, c)
    ensures Before(a, c)
    decreases |b|
  {
    if a != "" && a[0] == b[0] && b[0] == c[0] {
      BeforeTransitive(a[1..], b[1..], c[1..]);
    }
  }

  lemma {:induction false} BeforeTotal(a: string, b: string)
    ensures Before(a, b) || Before(b, a) || a == b
    ensures !(Before(a, b) && Before(b, a)) && !Before(a, a)
    decreases |a|
  {
    if a != "" {
      BeforeTotal(a[1..], a[1..]);
      if b != "" && a[0] == b[0] {
        BeforeTotal(a[1..], b[1..]);
        assert a == [a[0]] + a[1..] && b == [b[0]] + b[1..];
      }
    }
  }

  lemma ByNameOrders()
    ensures Transitive(ByName) && Weak(ByName) && forall v :: !ByName(v, v)
  {
    forall a: Variable, b: Variable, c: Variable | ByName(a, b) && ByName(b, c) ensures ByName(a, c) {
      BeforeTransitive(a.0, b.0, c.0);
    }
    forall a: Variable, b: Variable ensures ByName(a, b) ==> !ByName(b, a) {
      BeforeTotal(a.0, b.0);
    }
    forall a: Variable, b: Variable, c: Variable | ByName(a, c) ensures ByName(a, b) || ByName(b, c) {
      BeforeTotal(a.0, b.0);
      if Before(b.0, a.0) {
        BeforeTransitive(b.0, a.0, c.0);
      }
    }
    forall v: Variable ensures !ByName(v, v) {
      BeforeTotal(v.0, v.0);
    }
  }

  // ----- the order of the environment does not matter

  /** Every variable is given once, as in the environment of a process. */
  predicate Distinct(environment: seq<Variable>) {
    forall i, j :: 0 <= i < j < |environment| ==> environment[i].0 != environment[j].0
  }

  lemma {:induction false} OursDistinct(environment: seq<Variable>, prefix: string)
    requires Distinct(environment)
    ensures Distinct(Ours(environment, prefix))
    ensures forall v :: v in Ours(environment, prefix) <==> v in environment && prefix <= v.0
  {
    if environment != [] {
      assert environment == [environment[0]] + environment[1..];
      OursDistinct(environment[1..], prefix);
    }
  }

  lemma OursInOrder(environment: seq<Variable>, prefix: string)
    requires Distinct(environment)
    ensures var sorted := Sorted(ByName, Ours(environment, prefix));
      Ordered(ByName, sorted) && forall v :: v in sorted <==> v in environment && prefix <= v.0
  {
    hide Ours, Before;
    var ours := Ours(environment, prefix);
    OursDistinct(environment, prefix);
    ByNameOrders();
    forall i, j | 0 <= i < j < |ours| ensures ByName(ours[i], ours[j]) || ByName(ours[j], ours[i]) {
      BeforeTotal(ours[i].0, ours[j].0);
    }
    SortedOrdered(ByName, ours);
    forall v ensures v in Sorted(ByName, ours) <==> v in ours {
      assert v in multiset(Sorted(ByName, ours)) <==> v in multiset(ours);
    }
  }

  /** The same variables in any order are the same configuration. */
  lemma Deterministic(defaults: Value, file: Option<Value>, environment: seq<Variable>, other: seq<Variable>,
    overrides: seq<Change>, prefix: string, parse: Parser)
    requires Distinct(environment) && Distinct(other)
    requires forall v :: v in environment <==> v in other
    ensures Load(defaults, file, environment, overrides, prefix, parse)
      == Load(defaults, file, other, overrides, prefix, parse)
  {
    hide Distinct, Sorted, Ours, Applied, Items, Before;
    OursInOrder(environment, prefix);
    OursInOrder(other, prefix);
    ByNameOrders();
    OrderUnique(ByName, Sorted(ByName, Ours(environment, prefix)), Sorted(ByName, Ours(other, prefix)));
  }

  // ----- which source rules a field

  predicate AllThere(items: seq<Option<Op>>) {
    forall i :: 0 <= i < |items| ==> items[i].Some?
  }

  function Values(items: seq<Option<Op>>): seq<Op>
    requires AllThere(items)
  {
    seq(|items|, i requires 0 <= i < |items| => items[i].value)
  }

  lemma {:induction false} AppliedResolves(defaults: Value, items: seq<Option<Op>>)
    requires Applied(defaults, items).Some?
    ensures AllThere(items) && Resolve(Begin(defaults), Values(items)) == Applied(defaults, items)
    decreases |items|
  {
    hide Step, Begin;
    if items != [] {
      var before := items[..|items| - 1];
      AppliedResolves(defaults, before);
      assert Values(items)[..|items| - 1] == Values(before);
      forall i | 0 <= i < |items| ensures items[i].Some? {
        assert i < |before| ==> items[i] == before[i];
      }
    }
  }

  /** The last operation that decides a path, at `k`, gives it its value and its origin. */
  lemma {:induction false} ExpectedAt(defaults: Value, ops: seq<Op>, path: Path, k: nat)
    requires k < |ops| && Decides(ops[k], path)
    requires forall j :: k < j < |ops| ==> !Decides(ops[j], path)
    ensures Expected(defaults, ops, path) ==
      match Gives(ops[k], path)
      case None => None
      case Some(scalar) => Some((scalar, LayerOf(ops[k]).OriginOf(Dotted(path))))
    decreases |ops|
  {
    hide Decides, Gives, LayerOf, Dotted;
    if k < |ops| - 1 {
      ExpectedAt(defaults, ops[..|ops| - 1], path, k);
    }
  }

  lemma {:induction false} ExpectedDefault(defaults: Value, ops: seq<Op>, path: Path)
    requires forall j :: 0 <= j < |ops| ==> !Decides(ops[j], path)
    ensures Expected(defaults, ops, path) ==
      match LeafAt(defaults, path)
      case None => None
      case Some(scalar) => Some((scalar, Origin(Default, Dotted(path))))
    decreases |ops|
  {
    hide Decides, Dotted, LeafAt;
    if ops != [] {
      ExpectedDefault(defaults, ops[..|ops| - 1], path);
    }
  }

  /** The field that a key names is the path or a table around it. */
  predicate Reaches(key: Option<Path>, path: Path) {
    key.Some? && key.value <= path
  }

  predicate VariableReaches(v: Variable, prefix: string, path: Path) {
    prefix <= v.0 && Reaches(EnvironmentPath(v.0[|prefix|..]), path)
  }

  predicate ChangeReaches(c: Change, path: Path) {
    Reaches(OverridePath(c.key), path)
  }

  /** No key has a dot in it, wherever values come from. */
  ghost predicate PlainSources(defaults: Value, file: Option<Value>, parse: Parser) {
    && PlainTree(defaults) && (file.Some? ==> PlainTree(file.value))
    && forall text :: parse(text).Some? ==> PlainTree(parse(text).value)
  }

  /** What stands at the path is this, and where it is from is kept for it. */
  predicate Stands(t: State, path: Path, leaf: Option<Scalar>, origin: Origin, plain: bool) {
    && LeafAt(t.tree, path) == leaf
    && (plain && leaf.Some? && path != [] ==> Dotted(path) in t.provenance && t.provenance[Dotted(path)] == origin)
  }

  lemma PiecesArePlain(key: string)
    ensures EnvironmentPath(key).Some? ==> Plain(EnvironmentPath(key).value)
    ensures OverridePath(key).Some? ==> Plain(OverridePath(key).value)
  {
    if EnvironmentPath(key).Some? {
      var path := EnvironmentPath(key).value;
      forall i | 0 <= i < |path| ensures path[i] != "" && '.' !in path[i] {
        assert VariablePiece(Split(key, "__")[i]);
      }
    }
  }

  lemma PlainItems(defaults: Value, file: Option<Value>, variables: seq<Variable>, overrides: seq<Change>,
    prefix: string, parse: Parser)
    requires PlainSources(defaults, file, parse) && AllThere(Items(file, variables, overrides, prefix, parse))
    ensures PlainOps(defaults, Values(Items(file, variables, overrides, prefix, parse)))
  {
    hide EnvironmentPath, OverridePath, PlainTree, Plain;
    assert PlainTree(Leaf(Null)) by { PlainNull(); }
    var items := Items(file, variables, overrides, prefix, parse);
    var n := if file.Some? then 1 else 0;
    forall i | 0 <= i < |items| ensures PlainOp(items[i].value) {
      if n <= i < n + |variables| {
        var v := variables[i - n];
        assert items[i] == VariableOp(v, prefix, parse);
        PiecesArePlain(v.0[|prefix|..]);
      } else if i >= n + |variables| {
        var c := overrides[i - n - |variables|];
        assert items[i] == ChangeOp(c, parse);
        PiecesArePlain(c.key);
      }
    }
  }

  lemma PlainNull()
    ensures PlainTree(Leaf(Null))
  {
  }

  /** What a whole run leaves at a path, by the last of its operations that decides it. */
  lemma RuledBy(defaults: Value, items: seq<Option<Op>>, path: Path, k: nat, plain: bool)
    requires Applied(defaults, items).Some? && k < |items| && AllThere(items)
    requires Decides(items[k].value, path) && forall j :: k < j < |items| ==> !Decides(items[j].value, path)
    requires plain ==> PlainOps(defaults, Values(items))
    ensures Stands(Applied(defaults, items).value, path, Gives(items[k].value, path),
      LayerOf(items[k].value).OriginOf(Dotted(path)), plain)
  {
    hide Applied, Decides, Gives, LeafAt, PlainOps, Dotted, Expected, Resolve, Begin;
    var ops := Values(items);
    AppliedResolves(defaults, items);
    LastWriterWins(defaults, ops, path);
    ExpectedAt(defaults, ops, path, k);
    if plain && path != [] && Gives(items[k].value, path).Some? {
      ProvenanceNamesWriter(defaults, ops, path);
    }
  }

  lemma VariableDecides(v: Variable, prefix: string, parse: Parser, path: Path)
    requires VariableOp(v, prefix, parse).Some?
    ensures var op := VariableOp(v, prefix, parse).value;
      && prefix <= v.0 && EnvironmentPath(v.0[|prefix|..]).Some? && parse(v.1).Some?
      && (Decides(op, path) <==> VariableReaches(v, prefix, path))
      && LayerOf(op).OriginOf(Dotted(path)) == Origin(Environment, v.0)
      && (VariableReaches(v, prefix, path) ==>
        Gives(op, path) == LeafAt(parse(v.1).value, path[|EnvironmentPath(v.0[|prefix|..]).value|..]))
  {
    hide EnvironmentPath, LeafAt;
  }

  lemma ChangeDecides(c: Change, parse: Parser, path: Path)
    requires ChangeOp(c, parse).Some?
    ensures var op := ChangeOp(c, parse).value;
      && OverridePath(c.key).Some? && Given(c, parse).Some?
      && (Decides(op, path) <==> ChangeReaches(c, path))
      && LayerOf(op).OriginOf(Dotted(path)) == Origin(Override, c.key)
      && (ChangeReaches(c, path) ==>
        Gives(op, path) == LeafAt(Given(c, parse).value, path[|OverridePath(c.key).value|..]))
  {
    hide OverridePath, LeafAt;
  }

  lemma ItemAt(file: Option<Value>, variables: seq<Variable>, overrides: seq<Change>, prefix: string, parse: Parser,
    j: nat)
    requires j < |Items(file, variables, overrides, prefix, parse)|
    ensures var item := Items(file, variables, overrides, prefix, parse)[j];
      var n := if file.Some? then 1 else 0;
      if j < n then item == Some(FileLayer(file.value))
      else if j < n + |variables| then item == VariableOp(variables[j - n], prefix, parse)
      else j - n - |variables| < |overrides| && item == ChangeOp(overrides[j - n - |variables|], parse)
  {
  }

  lemma ItemsLength(file: Option<Value>, variables: seq<Variable>, overrides: seq<Change>, prefix: string,
    parse: Parser)
    ensures |Items(file, variables, overrides, prefix, parse)|
      == |variables| + |overrides| + if file.Some? then 1 else 0
  {
  }

  // ----- precedence

  /** The last override that reaches a path rules it, whatever else speaks of it. */
  lemma OverrideRules(defaults: Value, file: Option<Value>, environment: seq<Variable>, overrides: seq<Change>,
    prefix: string, parse: Parser, path: Path, k: nat, plain: bool)
    requires Load(defaults, file, environment, overrides, prefix, parse).Some?
    requires plain ==> PlainSources(defaults, file, parse)
    requires k < |overrides| && ChangeReaches(overrides[k], path)
    requires forall j :: k < j < |overrides| ==> !ChangeReaches(overrides[j], path)
    ensures var t := Load(defaults, file, environment, overrides, prefix, parse).value;
      var c := overrides[k];
      var below := path[|OverridePath(c.key).value|..];
      && (c.value.Some? ==> parse(c.value.value).Some?)
      && var value := if c.value.Some? then parse(c.value.value).value else Leaf(Null);
        Stands(t, path, LeafAt(value, below), Origin(Override, c.key), plain)
  {
    hide Applied, PlainOps, LeafAt, PlainSources, Sorted, Ours, Stands, Items, ChangeOp, VariableOp, ChangeReaches,
      Decides, Gives, LayerOf, Dotted;
    var variables := Sorted(ByName, Ours(environment, prefix));
    var items := Items(file, variables, overrides, prefix, parse);
    var n := |variables| + if file.Some? then 1 else 0;
    AppliedResolves(defaults, items);
    if plain {
      PlainItems(defaults, file, variables, overrides, prefix, parse);
    }
    ItemsLength(file, variables, overrides, prefix, parse);
    ItemAt(file, variables, overrides, prefix, parse, n + k);
    ChangeDecides(overrides[k], parse, path);
    forall j | n + k < j < |items| ensures !Decides(items[j].value, path) {
      ItemAt(file, variables, overrides, prefix, parse, j);
      ChangeDecides(overrides[j - n], parse, path);
    }
    RuledBy(defaults, items, path, n + k, plain);
  }

  /** Where no override reaches, the variable whose name comes last of those that reach rules. */
  lemma VariableRules(defaults: Value, file: Option<Value>, environment: seq<Variable>, overrides: seq<Change>,
    prefix: string, parse: Parser, path: Path, v: Variable, plain: bool)
    requires Load(defaults, file, environment, overrides, prefix, parse).Some?
    requires plain ==> PlainSources(defaults, file, parse)
    requires forall c :: c in overrides ==> !ChangeReaches(c, path)
    requires multiset(environment)[v] == 1 && VariableReaches(v, prefix, path)
    requires forall u :: u in environment && u != v && VariableReaches(u, prefix, path) ==> Before(u.0, v.0)
    ensures var t := Load(defaults, file, environment, overrides, prefix, parse).value;
      var below := path[|EnvironmentPath(v.0[|prefix|..]).value|..];
      parse(v.1).Some? && Stands(t, path, LeafAt(parse(v.1).value, below), Origin(Environment, v.0), plain)
  {
    hide Applied, PlainOps, LeafAt, PlainSources, Sorted, Ours, Stands, Before, Items, ChangeOp, VariableOp,
      ChangeReaches, VariableReaches, Decides, Gives, LayerOf, Dotted;
    var variables := Sorted(ByName, Ours(environment, prefix));
    var items := Items(file, variables, overrides, prefix, parse);
    var n := if file.Some? then 1 else 0;
    AppliedResolves(defaults, items);
    if plain {
      PlainItems(defaults, file, variables, overrides, prefix, parse);
    }
    var k := LastToReach(environment, prefix, path, v);
    ItemsLength(file, variables, overrides, prefix, parse);
    ItemAt(file, variables, overrides, prefix, parse, n + k);
    VariableDecides(v, prefix, parse, path);
    forall j | n + k < j < |items| ensures !Decides(items[j].value, path) {
      ItemAt(file, variables, overrides, prefix, parse, j);
      if j < n + |variables| {
        VariableDecides(variables[j - n], prefix, parse, path);
      } else {
        ChangeDecides(overrides[j - n - |variables|], parse, path);
      }
    }
    RuledBy(defaults, items, path, n + k, plain);
  }

  lemma LastToReach(environment: seq<Variable>, prefix: string, path: Path, v: Variable) returns (k: nat)
    requires multiset(environment)[v] == 1 && VariableReaches(v, prefix, path)
    requires forall u :: u in environment && u != v && VariableReaches(u, prefix, path) ==> Before(u.0, v.0)
    ensures var variables := Sorted(ByName, Ours(environment, prefix));
      && k < |variables| && variables[k] == v
      && forall j :: k < j < |variables| ==> !VariableReaches(variables[j], prefix, path)
  {
    hide VariableReaches, Sorted, Ours, Before;
    var variables := Sorted(ByName, Ours(environment, prefix));
    OursMeaning(environment, prefix, v);
    assert prefix <= v.0 by { ReachesPrefix(v, prefix, path); }
    assert v in multiset(variables);
    k :| 0 <= k < |variables| && variables[k] == v;
    ByNameOrders();
    SortedUnforced(ByName, Ours(environment, prefix));
    forall j | k < j < |variables| ensures !VariableReaches(variables[j], prefix, path) {
      AllOurs(environment, prefix, variables[j]);
      OnceIsOnce(variables, v, k, j);
      assert !ByName(variables[j], variables[k]);
    }
  }

  lemma ReachesPrefix(v: Variable, prefix: string, path: Path)
    requires VariableReaches(v, prefix, path)
    ensures prefix <= v.0
  {
  }

  lemma OnceIsOnce(variables: seq<Variable>, v: Variable, k: nat, j: nat)
    requires multiset(variables)[v] == 1 && k < j < |variables| && variables[k] == v
    ensures variables[j] != v
  {
    assert variables == variables[..j] + variables[j..];
    assert multiset(variables) == multiset(variables[..j]) + multiset(variables[j..]);
    assert variables[..j][k] == v;
    assert variables[j] == variables[j..][0];
  }

  /** Where neither reaches, the file rules what it speaks of, and the defaults rule the rest. */
  lemma FileRules(defaults: Value, file: Option<Value>, environment: seq<Variable>, overrides: seq<Change>,
    prefix: string, parse: Parser, path: Path, plain: bool)
    requires Load(defaults, file, environment, overrides, prefix, parse).Some?
    requires plain ==> PlainSources(defaults, file, parse)
    requires forall c :: c in overrides ==> !ChangeReaches(c, path)
    requires forall u :: u in environment ==> !VariableReaches(u, prefix, path)
    ensures var t := Load(defaults, file, environment, overrides, prefix, parse).value;
      if file.Some? && Covers(file.value, path)
      then Stands(t, path, LeafAt(file.value, path), Origin(File, Dotted(path)), plain)
      else Stands(t, path, LeafAt(defaults, path), Origin(Default, Dotted(path)), plain)
  {
    hide Applied, PlainOps, LeafAt, PlainSources, Sorted, Ours, Covers, Resolve, Begin, Items, ChangeOp, VariableOp,
      ChangeReaches, VariableReaches, Dotted;
    var variables := Sorted(ByName, Ours(environment, prefix));
    var items := Items(file, variables, overrides, prefix, parse);
    var n := if file.Some? then 1 else 0;
    AppliedResolves(defaults, items);
    if plain {
      PlainItems(defaults, file, variables, overrides, prefix, parse);
    }
    ItemsLength(file, variables, overrides, prefix, parse);
    forall j | n <= j < |items| ensures !Decides(items[j].value, path) {
      ItemAt(file, variables, overrides, prefix, parse, j);
      if j < n + |variables| {
        AllOurs(environment, prefix, variables[j - n]);
        VariableDecides(variables[j - n], prefix, parse, path);
      } else {
        ChangeDecides(overrides[j - n - |variables|], parse, path);
      }
    }
    if file.Some? {
      ItemAt(file, variables, overrides, prefix, parse, 0);
    }
    if file.Some? && Covers(file.value, path) {
      RuledBy(defaults, items, path, 0, plain);
    } else {
      var ops := Values(items);
      LastWriterWins(defaults, ops, path);
      ExpectedDefault(defaults, ops, path);
      if plain && path != [] && LeafAt(defaults, path).Some? {
        ProvenanceNamesWriter(defaults, ops, path);
      }
    }
  }
}
