/** Configuration layers merged into one tree, with the origin of every leaf. */
module LayeredConfig {
  import opened Wrappers

  /** Lists are leaves: only tables are merged. */
  datatype Scalar = Null | Data(text: string)

  datatype Value = Leaf(scalar: Scalar) | Object(fields: map<string, Value>)

  type Path = seq<string>

  datatype Source = Default | File | Environment | Override

  datatype Origin = Origin(source: Source, key: string)

  /** Where a layer's values come from; without a key each field names itself. */
  datatype Layer = Layer(source: Source, key: Option<string>) {
    function OriginOf(name: string): Origin {
      Origin(source, if key.Some? then key.value else name)
    }
  }

  /** Origins are kept by the names of the leaves, as they are written. */
  type Provenance = map<string, Origin>

  // ----- dotted paths

  /** A child without a parent is written alone. */
  function JoinPath(parent: string, child: string): string {
    if parent == "" then child else parent + "." + child
  }

  /** A path as it is written. */
  function Dotted(path: Path): string {
    if path == [] then "" else JoinPath(Dotted(path[..|path| - 1]), path[|path| - 1])
  }

  /** What a path below `name` is written as. */
  function Extend(name: string, path: Path): string
    decreases |path|
  {
    if path == [] then name else Extend(JoinPath(name, path[0]), path[1..])
  }

  lemma {:induction false} ExtendDotted(at: Path, path: Path)
    ensures Extend(Dotted(at), path) == Dotted(at + path)
    decreases |path|
  {
    if path == [] {
      assert at + path == at;
    } else {
      var longer := at + [path[0]];
      assert longer[..|longer| - 1] == at;
      ExtendDotted(longer, path[1..]);
      assert longer + path[1..] == at + path;
    }
  }

  predicate Plain(path: Path) {
    forall i :: 0 <= i < |path| ==> path[i] != "" && '.' !in path[i]
  }

  lemma LastSegment(a: string, x: string, b: string, y: string)
    requires '.' !in x && '.' !in y && a + "." + x == b + "." + y
    ensures a == b && x == y
  {
    var s := a + "." + x;
    assert s[|a|] == '.' && s[|b|] == '.';
    assert forall i :: |a| < i < |s| ==> s[i] == x[i - |a| - 1];
    assert forall i :: |b| < i < |s| ==> s[i] == y[i - |b| - 1];
    assert s[..|a|] == a && s[..|b|] == b && s[|a| + 1..] == x && s[|b| + 1..] == y;
  }

  lemma PlainParent(path: Path)
    requires Plain(path) && path != []
    ensures Plain(path[..|path| - 1]) && path[|path| - 1] != "" && '.' !in path[|path| - 1]
  {
  }

  lemma {:induction false} DottedShape(path: Path)
    requires Plain(path)
    ensures Dotted(path) == "" <==> path == []
    ensures |path| >= 1 ==> ('.' in Dotted(path) <==> |path| >= 2)
    decreases |path|
  {
    if path != [] {
      PlainParent(path);
      DottedShape(path[..|path| - 1]);
      if |path| >= 2 {
        var parent := Dotted(path[..|path| - 1]);
        assert Dotted(path)[|parent|] == '.';
      }
    }
  }

  /** Paths without dots in their keys are told apart by how they are written. */
  lemma {:induction false} DottedInjective(p: Path, q: Path)
    requires Plain(p) && Plain(q) && Dotted(p) == Dotted(q)
    ensures p == q
    decreases |p|
  {
    DottedShape(p);
    DottedShape(q);
    if p != [] && q != [] && |p| >= 2 && |q| >= 2 {
      var a, b := p[..|p| - 1], q[..|q| - 1];
      PlainParent(p);
      PlainParent(q);
      DottedShape(a);
      DottedShape(b);
      LastSegment(Dotted(a), p[|p| - 1], Dotted(b), q[|q| - 1]);
      DottedInjective(a, b);
      assert p == a + [p[|p| - 1]] && q == b + [q[|q| - 1]];
    }
  }

  // ----- trees

  function Lookup(v: Value, path: Path): Option<Value>
    decreases |path|
  {
    if path == [] then Some(v)
    else if v.Leaf? || path[0] !in v.fields then None
    else Lookup(v.fields[path[0]], path[1..])
  }

  function LeafAt(v: Value, path: Path): Option<Scalar> {
    match Lookup(v, path)
    case Some(Leaf(scalar)) => Some(scalar)
    case _ => None
  }

  function Merge(d: Value, s: Value): Value
    decreases s
  {
    if d.Leaf? || s.Leaf? then s
    else Object(map k | k in d.fields.Keys + s.fields.Keys :: MergeField(d, s, k))
  }

  function MergeField(d: Value, s: Value, k: string): Value
    requires d.Object? && s.Object? && k in d.fields.Keys + s.fields.Keys
    decreases s, 0
  {
    if k !in s.fields then d.fields[k]
    else if k in d.fields && d.fields[k].Object? && s.fields[k].Object? then Merge(d.fields[k], s.fields[k])
    else s.fields[k]
  }

  /** Sets one path, making tables on the way; a value in the way refuses it. */
  function SetPath(root: Value, path: Path, value: Value): Option<Value>
    decreases |path|
  {
    if path == [] || root.Leaf? then None
    else if |path| == 1 then Some(Object(root.fields[path[0] := value]))
    else
      var child := if path[0] in root.fields then root.fields[path[0]] else Object(map[]);
      match SetPath(child, path[1..], value)
      case None => None
      case Some(changed) => Some(Object(root.fields[path[0] := changed]))
  }

  // ----- provenance

  /** The names of the leaves of a value that stands under a name; a leaf without a name has no origin. */
  function LeafNames(v: Value, name: string): set<string> {
    match v
    case Leaf(_) => if name != "" then {name} else {}
    case Object(fields) => set k, n | k in fields && n in LeafNames(fields[k], JoinPath(name, k)) :: n
  }

  function Recorded(provenance: Provenance, v: Value, name: string, layer: Layer): Provenance {
    map n | n in provenance.Keys + LeafNames(v, name) ::
      if n in LeafNames(v, name) then layer.OriginOf(n) else provenance[n]
  }

  /** Some of a table's fields. */
  function Part(fields: map<string, Value>, keys: set<string>): Value
    requires keys <= fields.Keys
  {
    Object(map k | k in keys :: fields[k])
  }

  /** The leaf at `path` below `name` is written `n`. */
  predicate NamesLeaf(v: Value, name: string, n: string, path: Path) {
    LeafAt(v, path).Some? && Extend(name, path) == n
  }

  lemma {:induction false} LeafNamesMeaning(v: Value, name: string, n: string)
    ensures n in LeafNames(v, name) <==> n != "" && exists path :: NamesLeaf(v, name, n, path)
    decreases v
  {
    match v
    case Leaf(_) => assert NamesLeaf(v, name, name, []);
    case Object(fields) =>
      if n in LeafNames(v, name) {
        var k :| k in fields && n in LeafNames(fields[k], JoinPath(name, k));
        LeafNamesMeaning(fields[k], JoinPath(name, k), n);
        var path :| NamesLeaf(fields[k], JoinPath(name, k), n, path);
        LeafBelow(fields, k, name, n, path);
      }
      if n != "" && exists path :: NamesLeaf(v, name, n, path) {
        var path :| NamesLeaf(v, name, n, path);
        LeafNamesMeaning(fields[path[0]], JoinPath(name, path[0]), n);
        assert NamesLeaf(fields[path[0]], JoinPath(name, path[0]), n, path[1..]);
      }
  }

  lemma LeafBelow(fields: map<string, Value>, k: string, name: string, n: string, path: Path)
    requires k in fields && NamesLeaf(fields[k], JoinPath(name, k), n, path)
    ensures NamesLeaf(Object(fields), name, n, [k] + path)
  {
    assert ([k] + path)[1..] == path;
  }

  lemma LeafNamesOne(fields: map<string, Value>, done: set<string>, k: string, name: string)
    requires done <= fields.Keys && k in fields
    ensures LeafNames(Part(fields, done + {k}), name) ==
      LeafNames(Part(fields, done), name) + LeafNames(fields[k], JoinPath(name, k))
  {
    hide JoinPath;
    var before, after := Part(fields, done), Part(fields, done + {k});
    forall n ensures n in LeafNames(after, name) <==>
      n in LeafNames(before, name) || n in LeafNames(fields[k], JoinPath(name, k))
    {
      if n in LeafNames(after, name) {
        var j :| j in after.fields && n in LeafNames(after.fields[j], JoinPath(name, j));
        assert j == k || (j in before.fields && before.fields[j] == after.fields[j]);
      }
      if n in LeafNames(before, name) {
        var j :| j in before.fields && n in LeafNames(before.fields[j], JoinPath(name, j));
        assert j in after.fields && after.fields[j] == before.fields[j];
      }
      if n in LeafNames(fields[k], JoinPath(name, k)) {
        assert k in after.fields && after.fields[k] == fields[k];
      }
    }
  }

  lemma RecordedOne(provenance: Provenance, fields: map<string, Value>, done: set<string>, k: string, name: string,
    layer: Layer)
    requires done <= fields.Keys && k in fields
    ensures Recorded(Recorded(provenance, Part(fields, done), name, layer), fields[k], JoinPath(name, k), layer) ==
      Recorded(provenance, Part(fields, done + {k}), name, layer)
  {
    hide LeafNames, Part, JoinPath;
    LeafNamesOne(fields, done, k, name);
  }

  lemma RecordedNone(provenance: Provenance, fields: map<string, Value>, name: string, layer: Layer)
    ensures Recorded(provenance, Part(fields, {}), name, layer) == provenance
  {
    assert LeafNames(Part(fields, {}), name) == {};
  }

  lemma PartWhole(fields: map<string, Value>, done: set<string>)
    requires done == fields.Keys
    ensures Part(fields, done) == Object(fields)
  {
    assert Part(fields, done).fields == fields;
  }

  lemma MergeNone(d: Value, fields: map<string, Value>)
    requires d.Object?
    ensures Merge(d, Part(fields, {})) == d
  {
    assert Merge(d, Part(fields, {})).fields == d.fields;
  }

  /** The value that one field of a layer leaves in a table. */
  function FieldMerged(d: Value, k: string, v: Value): Value
    requires d.Object?
  {
    if k in d.fields && d.fields[k].Object? && v.Object? then Merge(d.fields[k], v) else v
  }

  lemma MergeOne(d: Value, fields: map<string, Value>, done: set<string>, k: string)
    requires d.Object? && done <= fields.Keys && k in fields && k !in done
    ensures var before := Merge(d, Part(fields, done));
      && before.Object? && FieldMerged(before, k, fields[k]) == FieldMerged(d, k, fields[k])
      && Object(before.fields[k := FieldMerged(d, k, fields[k])]) == Merge(d, Part(fields, done + {k}))
  {
    var part, whole := Part(fields, done), Part(fields, done + {k});
    var before, after := Merge(d, part), Merge(d, whole);
    assert before.fields.Keys == d.fields.Keys + done && after.fields.Keys == d.fields.Keys + done + {k};
    forall j | j in before.fields && j != k ensures before.fields[j] == after.fields[j] {
      assert MergeField(d, part, j) == MergeField(d, whole, j);
    }
    assert after.fields[k] == MergeField(d, whole, k) == FieldMerged(d, k, fields[k]);
    assert before.fields[k := FieldMerged(d, k, fields[k])] == after.fields;
  }

  lemma RecordedLeaf(provenance: Provenance, scalar: Scalar, name: string, layer: Layer)
    ensures Recorded(provenance, Leaf(scalar), name, layer) ==
      if name != "" then provenance[name := layer.OriginOf(name)] else provenance
  {
  }

  method RecordLeaves(v: Value, name: string, layer: Layer, provenance: Provenance) returns (r: Provenance)
    ensures r == Recorded(provenance, v, name, layer)
    decreases v
  {
    hide Recorded, Part;
    r := provenance;
    match v {
      case Object(fields) =>
        var left := fields.Keys;
        ghost var done: set<string> := {};
        RecordedNone(provenance, fields, name, layer);
        while left != {}
          invariant left + done == fields.Keys && left !! done
          invariant r == Recorded(provenance, Part(fields, done), name, layer)
          decreases |left|
        {
          var k :| k in left;
          RecordedOne(provenance, fields, done, k, name, layer);
          r := RecordLeaves(fields[k], JoinPath(name, k), layer, r);
          left, done := left - {k}, done + {k};
        }
        PartWhole(fields, done);
      case Leaf(scalar) =>
        RecordedLeaf(provenance, scalar, name, layer);
        if name != "" {
          r := r[name := layer.OriginOf(name)];
        }
    }
  }

  /** One layer over the tree: its tables are merged into the tree's, and anything else of it replaces what is there. */
  method MergeValues(d: Value, s: Value, name: string, layer: Layer, provenance: Provenance)
    returns (tree: Value, r: Provenance)
    ensures tree == Merge(d, s) && r == Recorded(provenance, s, name, layer)
    decreases s
  {
    hide Recorded, Part;
    if s.Leaf? || d.Leaf? {
      tree := s;
      r := RecordLeaves(s, name, layer, provenance);
      return;
    }
    tree, r := d, provenance;
    var left := s.fields.Keys;
    ghost var done: set<string> := {};
    MergeNone(d, s.fields);
    RecordedNone(provenance, s.fields, name, layer);
    while left != {}
      invariant left + done == s.fields.Keys && left !! done
      invariant tree == Merge(d, Part(s.fields, done))
      invariant r == Recorded(provenance, Part(s.fields, done), name, layer)
      decreases |left|
    {
      var k :| k in left;
      var value := s.fields[k];
      MergeOne(d, s.fields, done, k);
      RecordedOne(provenance, s.fields, done, k, name, layer);
      var merged := value;
      if k in tree.fields && tree.fields[k].Object? && value.Object? {
        merged, r := MergeValues(tree.fields[k], value, JoinPath(name, k), layer, r);
      } else {
        r := RecordLeaves(value, JoinPath(name, k), layer, r);
      }
      tree := Object(tree.fields[k := merged]);
      left, done := left - {k}, done + {k};
    }
    PartWhole(s.fields, done);
  }

  /** One path set, and the leaves of what it is set to recorded under it; no segment of the path is empty. */
  method SetField(root: Value, path: Path, value: Value, layer: Layer, provenance: Provenance)
    returns (tree: Option<Value>, r: Provenance)
    ensures tree == SetPath(root, path, value)
    ensures r == if tree.Some? then Recorded(provenance, value, Dotted(path), layer) else provenance
  {
    r := provenance;
    tree := SetPath(root, path, value);
    if tree.Some? {
      r := RecordLeaves(value, Dotted(path), layer, provenance);
    }
  }

  // ----- what a layer does to each leaf

  /** A value stands at the path, or a leaf stands above it. */
  function Covers(v: Value, path: Path): bool
    decreases |path|
  {
    path == [] || v.Leaf? || (path[0] in v.fields && Covers(v.fields[path[0]], path[1..]))
  }

  /** Merging gives every leaf the layer speaks of the layer's value, and leaves every other as it was. */
  lemma {:induction false} MergeMeaning(d: Value, s: Value, path: Path)
    ensures LeafAt(Merge(d, s), path) == if Covers(s, path) then LeafAt(s, path) else LeafAt(d, path)
    decreases s
  {
    if d.Object? && s.Object? && path != [] && path[0] in s.fields {
      var k := path[0];
      if k in d.fields && d.fields[k].Object? && s.fields[k].Object? {
        MergeMeaning(d.fields[k], s.fields[k], path[1..]);
      }
      if !Covers(s.fields[k], path[1..]) && (k !in d.fields || d.fields[k].Leaf?) {
        UncoveredHasNoLeaf(s.fields[k], path[1..]);
        assert Lookup(d, path) == None;
        assert Lookup(s, path) == Lookup(s.fields[k], path[1..]);
      }
    } else if d.Leaf? && s.Object? && path != [] && !Covers(s, path) {
      UncoveredHasNoLeaf(s, path);
    }
  }

  lemma {:induction false} UncoveredHasNoLeaf(v: Value, path: Path)
    requires !Covers(v, path)
    ensures LeafAt(v, path) == None && path != []
    decreases |path|
  {
    if v.Object? && path[0] in v.fields {
      UncoveredHasNoLeaf(v.fields[path[0]], path[1..]);
    }
  }

  lemma PrefixTail(at: Path, path: Path)
    requires at != [] && path != [] && at[0] == path[0]
    ensures at <= path <==> at[1..] <= path[1..]
    ensures at <= path ==> path[1..][|at| - 1..] == path[|at|..]
  {
    assert at == [at[0]] + at[1..] && path == [path[0]] + path[1..];
  }

  /** Setting a path gives it the value, and leaves every leaf that is not below it as it was. */
  lemma {:induction false} SetPathMeaning(root: Value, at: Path, value: Value, path: Path)
    requires SetPath(root, at, value).Some?
    ensures var t := SetPath(root, at, value).value;
      LeafAt(t, path) == if at <= path then LeafAt(value, path[|at|..]) else LeafAt(root, path)
    decreases |at|
  {
    var k, t := at[0], SetPath(root, at, value).value;
    if path != [] && path[0] == k {
      if |at| == 1 {
        assert path[|at|..] == path[1..];
      } else {
        var child := if k in root.fields then root.fields[k] else Object(map[]);
        SetPathMeaning(child, at[1..], value, path[1..]);
        PrefixTail(at, path);
      }
    }
  }

  // ----- whole runs

  datatype Op =
    | FileLayer(table: Value)
    | Assign(source: Source, key: string, path: Path, value: Value)

  datatype State = State(tree: Value, provenance: Provenance)

  function LayerOf(op: Op): Layer {
    match op
    case FileLayer(_) => Layer(File, None)
    case Assign(source, key, _, _) => Layer(source, Some(key))
  }

  function Step(s: State, op: Op): Option<State> {
    match op
    case FileLayer(table) => Some(State(Merge(s.tree, table), Recorded(s.provenance, table, "", LayerOf(op))))
    case Assign(_, _, path, value) =>
      match SetPath(s.tree, path, value)
      case None => None
      case Some(tree) => Some(State(tree, Recorded(s.provenance, value, Dotted(path), LayerOf(op))))
  }

  function Resolve(s: State, ops: seq<Op>): Option<State>
    decreases |ops|
  {
    if ops == [] then Some(s)
    else match Resolve(s, ops[..|ops| - 1])
      case None => None
      case Some(t) => Step(t, ops[|ops| - 1])
  }

  function Begin(defaults: Value): State {
    State(defaults, Recorded(map[], defaults, "", Layer(Default, None)))
  }

  /** The operation says what stands at the path: it puts a leaf there, or something else. */
  predicate Decides(op: Op, path: Path) {
    match op
    case FileLayer(table) => Covers(table, path)
    case Assign(_, _, at, _) => at <= path
  }

  function Gives(op: Op, path: Path): Option<Scalar> {
    match op
    case FileLayer(table) => LeafAt(table, path)
    case Assign(_, _, at, value) => if at <= path then LeafAt(value, path[|at|..]) else None
  }

  /** The value and the origin that the last deciding operation gives a leaf. */
  function Expected(defaults: Value, ops: seq<Op>, path: Path): Option<(Scalar, Origin)>
    decreases |ops|
  {
    if ops == [] then
      match LeafAt(defaults, path)
      case None => None
      case Some(scalar) => Some((scalar, Layer(Default, None).OriginOf(Dotted(path))))
    else
      var last := ops[|ops| - 1];
      if !Decides(last, path) then Expected(defaults, ops[..|ops| - 1], path)
      else match Gives(last, path)
        case None => None
        case Some(scalar) => Some((scalar, LayerOf(last).OriginOf(Dotted(path))))
  }

  /** Whether any layer ever gave the path a leaf. */
  predicate EverGiven(defaults: Value, ops: seq<Op>, path: Path) {
    LeafAt(defaults, path).Some? || exists i :: 0 <= i < |ops| && Gives(ops[i], path).Some?
  }

  /** The names of the leaves an operation writes. */
  function NamesOf(op: Op): set<string> {
    match op
    case FileLayer(table) => LeafNames(table, "")
    case Assign(_, _, at, value) => LeafNames(value, Dotted(at))
  }

  lemma StepMeaning(s: State, op: Op, path: Path)
    requires Step(s, op).Some?
    ensures var t := Step(s, op).value;
      LeafAt(t.tree, path) == if Decides(op, path) then Gives(op, path) else LeafAt(s.tree, path)
  {
    hide LeafAt, Covers, Merge, SetPath;
    match op
    case FileLayer(table) => MergeMeaning(s.tree, table, path);
    case Assign(_, _, at, value) => SetPathMeaning(s.tree, at, value, path);
  }

  /** A leaf that an operation gives is decided by it, and recorded under its name. */
  lemma GivenIsNamed(op: Op, path: Path)
    requires Gives(op, path).Some?
    ensures Decides(op, path) && (Dotted(path) != "" ==> Dotted(path) in NamesOf(op))
  {
    match op
    case FileLayer(table) =>
      if !Covers(table, path) {
        UncoveredHasNoLeaf(table, path);
      }
      assert path[0..] == path;
      LeafIsNamed(table, [], path);
    case Assign(_, _, at, value) => LeafIsNamed(value, at, path);
  }

  lemma LeafIsNamed(v: Value, at: Path, path: Path)
    requires at <= path && LeafAt(v, path[|at|..]).Some?
    ensures Dotted(path) != "" ==> Dotted(path) in LeafNames(v, Dotted(at))
  {
    assert at + path[|at|..] == path;
    ExtendDotted(at, path[|at|..]);
    LeafNamesMeaning(v, Dotted(at), Dotted(path));
    assert NamesLeaf(v, Dotted(at), Dotted(path), path[|at|..]);
  }

  // ----- values

  function Scalars(r: Option<(Scalar, Origin)>): Option<Scalar> {
    match r case None => None case Some(pair) => Some(pair.0)
  }

  /**
   * After any defaults, file layer, environment and overrides, every path has the value of the last operation
   * deciding it.
   */
  lemma {:induction false} LastWriterWins(defaults: Value, ops: seq<Op>, path: Path)
    requires Resolve(Begin(defaults), ops).Some?
    ensures LeafAt(Resolve(Begin(defaults), ops).value.tree, path) == Scalars(Expected(defaults, ops, path))
    decreases |ops|
  {
    hide LeafAt, Decides, Gives, Step;
    if ops != [] {
      var before, last := ops[..|ops| - 1], ops[|ops| - 1];
      LastWriterWins(defaults, before, path);
      StepMeaning(Resolve(Begin(defaults), before).value, last, path);
    } else {
      BeginTree(defaults);
    }
  }

  lemma BeginTree(defaults: Value)
    ensures Begin(defaults).tree == defaults
  {
  }

  // ----- origins

  /** The origin of the last operation that wrote a leaf of this name. */
  function NameOrigin(defaults: Value, ops: seq<Op>, name: string): Option<Origin>
    decreases |ops|
  {
    if ops == [] then if name in LeafNames(defaults, "") then Some(Layer(Default, None).OriginOf(name)) else None
    else
      var last := ops[|ops| - 1];
      if name in NamesOf(last) then Some(LayerOf(last).OriginOf(name)) else NameOrigin(defaults, ops[..|ops| - 1], name)
  }

  /** Origins go by name: each is that of the last operation that wrote a leaf of the name, wherever the leaf stood. */
  lemma {:induction false} OriginsGoByName(defaults: Value, ops: seq<Op>, name: string)
    requires Resolve(Begin(defaults), ops).Some?
    ensures var provenance := Resolve(Begin(defaults), ops).value.provenance;
      NameOrigin(defaults, ops, name) == if name in provenance then Some(provenance[name]) else None
    decreases |ops|
  {
    hide LeafNames, Dotted, Merge, SetPath;
    if ops != [] {
      OriginsGoByName(defaults, ops[..|ops| - 1], name);
    }
  }

  /** Since the leaf was given, no operation has written another leaf of its name from another origin. */
  predicate Untaken(defaults: Value, ops: seq<Op>, path: Path)
    requires Expected(defaults, ops, path).Some?
    decreases |ops|
  {
    ops == [] || Decides(ops[|ops| - 1], path) ||
    if Dotted(path) in NamesOf(ops[|ops| - 1])
    then LayerOf(ops[|ops| - 1]).OriginOf(Dotted(path)) == Expected(defaults, ops[..|ops| - 1], path).value.1
    else Untaken(defaults, ops[..|ops| - 1], path)
  }

  /** Whatever the keys, a leaf's name has the leaf's own origin exactly when the name has not been taken since. */
  lemma {:induction false} OriginRightIff(defaults: Value, ops: seq<Op>, path: Path)
    requires Expected(defaults, ops, path).Some? && Dotted(path) != ""
    ensures NameOrigin(defaults, ops, Dotted(path)) == Some(Expected(defaults, ops, path).value.1) <==>
      Untaken(defaults, ops, path)
    decreases |ops|
  {
    hide Dotted, NamesOf, Decides, Gives, LeafNames, LeafAt;
    if ops == [] {
      DefaultIsNamed(defaults, path);
    } else {
      var before, last := ops[..|ops| - 1], ops[|ops| - 1];
      if Decides(last, path) {
        GivenIsNamed(last, path);
      } else {
        OriginRightIff(defaults, before, path);
      }
    }
  }

  lemma DefaultIsNamed(defaults: Value, path: Path)
    requires LeafAt(defaults, path).Some? && Dotted(path) != ""
    ensures Dotted(path) in LeafNames(defaults, "")
  {
    assert path[0..] == path;
    LeafIsNamed(defaults, [], path);
  }

  /** No key is empty or has a dot in it, all the way down. */
  predicate PlainTree(v: Value) {
    v.Object? ==> forall k :: k in v.fields ==> k != "" && '.' !in k && PlainTree(v.fields[k])
  }

  predicate PlainOp(op: Op) {
    match op
    case FileLayer(table) => PlainTree(table)
    case Assign(_, _, path, value) => Plain(path) && PlainTree(value)
  }

  predicate PlainOps(defaults: Value, ops: seq<Op>) {
    PlainTree(defaults) && forall i :: 0 <= i < |ops| ==> PlainOp(ops[i])
  }

  lemma {:induction false} PlainLeaf(v: Value, path: Path)
    requires PlainTree(v) && LeafAt(v, path).Some?
    ensures Plain(path)
    decreases |path|
  {
    if path != [] {
      PlainLeaf(v.fields[path[0]], path[1..]);
      forall i | 0 <= i < |path| ensures path[i] != "" && '.' !in path[i] {
        if i > 0 {
          assert path[i] == path[1..][i - 1];
        }
      }
    }
  }

  /** With plain keys, the only leaf of a path's name is the one at the path. */
  lemma PlainName(v: Value, at: Path, path: Path)
    requires PlainTree(v) && Plain(at) && Plain(path) && Dotted(path) in LeafNames(v, Dotted(at))
    ensures at <= path && LeafAt(v, path[|at|..]).Some?
  {
    LeafNamesMeaning(v, Dotted(at), Dotted(path));
    var p :| NamesLeaf(v, Dotted(at), Dotted(path), p);
    PlainLeaf(v, p);
    ExtendDotted(at, p);
    assert Plain(at + p);
    DottedInjective(at + p, path);
    assert path[|at|..] == p;
  }

  lemma PlainNamesGiven(op: Op, path: Path)
    requires PlainOp(op) && Plain(path) && path != []
    ensures Dotted(path) in NamesOf(op) <==> Gives(op, path).Some?
  {
    DottedShape(path);
    if Gives(op, path).Some? {
      GivenIsNamed(op, path);
    }
    if Dotted(path) in NamesOf(op) {
      match op
      case FileLayer(table) =>
        PlainName(table, [], path);
        assert path[0..] == path;
      case Assign(_, _, at, value) => PlainName(value, at, path);
    }
  }

  lemma {:induction false} PlainUntaken(defaults: Value, ops: seq<Op>, path: Path)
    requires PlainOps(defaults, ops) && Plain(path) && path != [] && Expected(defaults, ops, path).Some?
    ensures Untaken(defaults, ops, path)
    decreases |ops|
  {
    hide Dotted, NamesOf, Decides, Gives;
    if ops != [] {
      var last := ops[|ops| - 1];
      if !Decides(last, path) {
        PlainNamesGiven(last, path);
        if Gives(last, path).Some? {
          GivenIsNamed(last, path);
        }
        PlainUntaken(defaults, ops[..|ops| - 1], path);
      }
    }
  }

  /** A leaf that stands is at a plain path when all keys are plain. */
  lemma {:induction false} PlainExpected(defaults: Value, ops: seq<Op>, path: Path)
    requires PlainOps(defaults, ops) && Expected(defaults, ops, path).Some?
    ensures Plain(path)
    decreases |ops|
  {
    if ops == [] {
      PlainLeaf(defaults, path);
    } else {
      var last := ops[|ops| - 1];
      if !Decides(last, path) {
        PlainExpected(defaults, ops[..|ops| - 1], path);
      } else {
        PlainGiven(last, path);
      }
    }
  }

  lemma PlainGiven(op: Op, path: Path)
    requires PlainOp(op) && Gives(op, path).Some?
    ensures Plain(path)
  {
    match op
    case FileLayer(table) => PlainLeaf(table, path);
    case Assign(_, _, at, value) =>
      PlainLeaf(value, path[|at|..]);
      assert path == at + path[|at|..];
  }

  /** With plain keys every leaf's origin is the last operation that decided it. */
  lemma ProvenanceNamesWriter(defaults: Value, ops: seq<Op>, path: Path)
    requires PlainOps(defaults, ops) && Resolve(Begin(defaults), ops).Some? && path != []
    requires Expected(defaults, ops, path).Some?
    ensures var t := Resolve(Begin(defaults), ops).value; var (scalar, origin) := Expected(defaults, ops, path).value;
      && LeafAt(t.tree, path) == Some(scalar)
      && Dotted(path) in t.provenance && t.provenance[Dotted(path)] == origin
  {
    hide PlainOps, Resolve, LeafAt, Dotted, NameOrigin, Untaken;
    LastWriterWins(defaults, ops, path);
    PlainExpected(defaults, ops, path);
    PlainUntaken(defaults, ops, path);
    NonemptyName(path);
    OriginRightIff(defaults, ops, path);
    OriginsGoByName(defaults, ops, Dotted(path));
  }

  lemma NonemptyName(path: Path)
    requires Plain(path) && path != []
    ensures Dotted(path) != ""
  {
    DottedShape(path);
  }

  lemma NothingGiven(defaults: Value, path: Path)
    ensures EverGiven(defaults, [], path) <==> LeafAt(defaults, path).Some?
  {
  }

  lemma EverGivenStep(defaults: Value, ops: seq<Op>, path: Path)
    requires ops != []
    ensures EverGiven(defaults, ops, path) <==>
      EverGiven(defaults, ops[..|ops| - 1], path) || Gives(ops[|ops| - 1], path).Some?
  {
    var before := ops[..|ops| - 1];
    if i :| 0 <= i < |before| && Gives(before[i], path).Some? {
      assert Gives(ops[i], path).Some?;
    }
    if i :| 0 <= i < |ops| - 1 && Gives(ops[i], path).Some? {
      assert Gives(before[i], path).Some?;
    }
  }

  lemma {:induction false} EverNamed(defaults: Value, ops: seq<Op>, path: Path)
    requires PlainOps(defaults, ops) && Plain(path) && path != []
    ensures NameOrigin(defaults, ops, Dotted(path)).Some? <==> EverGiven(defaults, ops, path)
    decreases |ops|
  {
    hide Dotted, NamesOf, Gives, EverGiven, LeafNames;
    if ops == [] {
      NothingGiven(defaults, path);
      NonemptyName(path);
      if LeafAt(defaults, path).Some? {
        DefaultIsNamed(defaults, path);
      }
      if Dotted(path) in LeafNames(defaults, "") {
        DefaultHasLeaf(defaults, path);
      }
    } else {
      EverNamed(defaults, ops[..|ops| - 1], path);
      EverGivenStep(defaults, ops, path);
      PlainNamesGiven(ops[|ops| - 1], path);
    }
  }

  lemma DefaultHasLeaf(defaults: Value, path: Path)
    requires PlainTree(defaults) && Plain(path) && Dotted(path) in LeafNames(defaults, "")
    ensures LeafAt(defaults, path).Some?
  {
    PlainName(defaults, [], path);
    assert path[0..] == path;
  }

  /**
   * With plain keys an origin is stale exactly when its path had a leaf once and the last operation deciding it took
   * it away.
   */
  lemma StaleIff(defaults: Value, ops: seq<Op>, path: Path)
    requires PlainOps(defaults, ops) && Resolve(Begin(defaults), ops).Some? && Plain(path) && path != []
    ensures var t := Resolve(Begin(defaults), ops).value;
      Dotted(path) in t.provenance && LeafAt(t.tree, path) == None <==>
      EverGiven(defaults, ops, path) && Expected(defaults, ops, path) == None
  {
    hide Expected, EverGiven, Resolve, Dotted, PlainOps, NameOrigin;
    LastWriterWins(defaults, ops, path);
    EverNamed(defaults, ops, path);
    OriginsGoByName(defaults, ops, Dotted(path));
  }

  // ----- where it fails

  lemma LookupField(fields: map<string, Value>, k: string, path: Path)
    requires k in fields
    ensures Lookup(Object(fields), [k] + path) == Lookup(fields[k], path)
    ensures Covers(Object(fields), [k] + path) == Covers(fields[k], path)
  {
    assert ([k] + path)[0] == k && ([k] + path)[1..] == path;
  }

  lemma ResolveOne(defaults: Value, op: Op)
    ensures Resolve(Begin(defaults), [op]) == Step(Begin(defaults), op)
  {
    assert [op][..0] == [];
  }

  /** A table replaced by a value leaves the origin of its field behind. */
  lemma StaleOrigin(a: string, b: string, first: Scalar, replacement: Scalar)
    requires Plain([a] + [b])
    ensures var defaults := Object(map[a := Object(map[b := Leaf(first)])]);
      var r := Resolve(Begin(defaults), [FileLayer(Object(map[a := Leaf(replacement)]))]);
      r.Some? && LeafAt(r.value.tree, [a] + [b]) == None && Dotted([a] + [b]) in r.value.provenance
  {
    hide Plain, Dotted, Resolve, Lookup, Covers, Merge, LeafNames;
    var inner, path := map[b := Leaf(first)], [a] + [b];
    var defaults, table := Object(map[a := Object(inner)]), Object(map[a := Leaf(replacement)]);
    var op := FileLayer(table);
    ResolveOne(defaults, op);
    LookupField(map[a := Object(inner)], a, [b]);
    LookupField(map[a := Leaf(replacement)], a, [b]);
    LeafHasNothingBelow(replacement, b);
    assert [b] == [b] + [];
    LookupField(inner, b, []);
    LookupHere(Leaf(first));
    assert Expected(defaults, [op], path) == None by {
      ExpectedOne(defaults, op, path);
    }
    StaleFromOne(defaults, op, path, a, b);
  }

  lemma LeafHasNothingBelow(scalar: Scalar, b: string)
    ensures Lookup(Leaf(scalar), [b]) == None && Covers(Leaf(scalar), [b])
  {
  }

  lemma LookupHere(v: Value)
    ensures Lookup(v, []) == Some(v)
  {
  }

  lemma ExpectedOne(defaults: Value, op: Op, path: Path)
    requires Decides(op, path) && Gives(op, path) == None
    ensures Expected(defaults, [op], path) == None
  {
  }

  /** What a deciding operation takes away leaves its origin, for a leaf among the defaults. */
  lemma StaleFromOne(defaults: Value, op: Op, path: Path, a: string, b: string)
    requires Resolve(Begin(defaults), [op]).Some? && path == [a] + [b] && Plain(path)
    requires LeafAt(defaults, path).Some? && Expected(defaults, [op], path) == None
    ensures var t := Resolve(Begin(defaults), [op]).value;
      LeafAt(t.tree, path) == None && Dotted(path) in t.provenance
  {
    hide LeafAt, Resolve, Expected;
    LastWriterWins(defaults, [op], path);
    OriginsGoByName(defaults, [op], Dotted(path));
    NonemptyName(path);
    DefaultIsNamed(defaults, path);
    NamedFromDefaults(defaults, op, Dotted(path));
  }

  lemma NamedFromDefaults(defaults: Value, op: Op, name: string)
    requires name in LeafNames(defaults, "")
    ensures NameOrigin(defaults, [op], name).Some?
  {
    assert [op][..0] == [];
  }

  /**
   * A file's field whose own key holds the dot keeps its value when the environment sets the path written the same, and
   * its origin becomes the environment variable.
   */
  lemma DottedKeyCollides(defaults: Value, key: string, path: Path, first: Scalar, second: Scalar, variable: string)
    requires Dotted(path) == Dotted([key]) != "" && !(path <= [key])
    requires var file := FileLayer(Object(map[key := Leaf(first)]));
      Resolve(Begin(defaults), [file] + [Assign(Environment, variable, path, Leaf(second))]).Some?
    ensures var file := FileLayer(Object(map[key := Leaf(first)]));
      var t := Resolve(Begin(defaults), [file] + [Assign(Environment, variable, path, Leaf(second))]).value;
      && LeafAt(t.tree, [key]) == Some(first)
      && Dotted([key]) in t.provenance && t.provenance[Dotted([key])] == Origin(Environment, variable)
  {
    hide Resolve, Dotted, Lookup, Covers, NameOrigin, Expected;
    var file, assign := FileLayer(Object(map[key := Leaf(first)])), Assign(Environment, variable, path, Leaf(second));
    var ops := [file] + [assign];
    assert ops[..1] == [file] && ops[1] == assign;
    assert [key] == [key] + [];
    LookupField(map[key := Leaf(first)], key, []);
    LookupHere(Leaf(first));
    LastWriterWins(defaults, ops, [key]);
    OriginsGoByName(defaults, ops, Dotted([key]));
    ExpectedTwo(defaults, file, assign, [key]);
    TakenByLast(defaults, ops, Dotted([key]));
  }

  lemma ExpectedTwo(defaults: Value, first: Op, last: Op, path: Path)
    requires Gives(first, path).Some? && !Decides(last, path)
    ensures Scalars(Expected(defaults, [first] + [last], path)) == Gives(first, path)
  {
    assert ([first] + [last])[..1] == [first];
    GivenIsNamed(first, path);
  }

  lemma TakenByLast(defaults: Value, ops: seq<Op>, name: string)
    requires ops != [] && name in NamesOf(ops[|ops| - 1])
    ensures NameOrigin(defaults, ops, name) == Some(LayerOf(ops[|ops| - 1]).OriginOf(name))
  {
  }

  /** Such a run exists: `a.b` in a file, and `a`, then `b`, in the environment. */
  lemma DottedKeyReached(a: string, b: string, first: Scalar, second: Scalar, variable: string)
    requires Plain([a] + [b])
    ensures var key := a + "." + b; var path := [a] + [b];
      var file := FileLayer(Object(map[key := Leaf(first)]));
      && Dotted(path) == Dotted([key]) != "" && !(path <= [key])
      && Resolve(Begin(Object(map[])), [file] + [Assign(Environment, variable, path, Leaf(second))]).Some?
  {
    var key, path := a + "." + b, [a] + [b];
    assert path[..1] == [a] && path[1] == b && [a][..0] == [] && [key][..0] == [];
    assert path[0] == a && path[1..] == [b];
    var file, assign := FileLayer(Object(map[key := Leaf(first)])), Assign(Environment, variable, path, Leaf(second));
    assert ([file] + [assign])[..1] == [file];
    ResolveOne(Object(map[]), file);
    SetPathTwo(Merge(Object(map[]), Object(map[key := Leaf(first)])), a, b, Leaf(second));
  }

  lemma SetPathTwo(root: Value, a: string, b: string, value: Value)
    requires root.Object? && (a in root.fields ==> root.fields[a].Object?)
    ensures SetPath(root, [a] + [b], value).Some?
  {
    assert ([a] + [b])[1..] == [b];
  }
}
