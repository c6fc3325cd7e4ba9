/**
 * NIFMeshLoader and NIFLoader::load: the walk that registers one Ogre mesh
 * per tri-shape of a NIF file (named "<file>@<shape>") together with the
 * manual loader that will fill it, and the lazy load that later turns the
 * named shape into a sub-mesh. The Ogre mesh and skeleton managers and the
 * static loader table are the state of MeshRegistry; a mesh being loaded
 * is a Mesh.
 */
module MeshLoader {
  import opened Wrappers
  import opened NifRecords
  import opened Decimal
  import opened MaterialLoader
  import opened SkeletonLoader

  /** The fields of an NIFMeshLoader; loaders are copied by value. */
  datatype Loader = Loader(name: string, group: string, shapeName: string, materialName: string, hasSkel: bool)

  /* ---------------- the loader table's key ---------------- */

  function UpperAscii(c: char): char {
    if 'a' <= c <= 'z' then (c as int - 32) as char else c
  }

  /**
   * The static loader table compares names ignoring case (ciLessBoost); two
   * names address the same entry exactly when their folds are equal.
   */
  function Fold(s: string): (r: string)
    ensures |r| == |s| && forall i :: 0 <= i < |s| ==> r[i] == UpperAscii(s[i])
  {
    if s == [] then [] else [UpperAscii(s[0])] + Fold(s[1..])
  }

  /* ---------------- extra-data chain ---------------- */

  /** A string extra of this text marks an editor-only subtree. */
  const Marker := "MRK"

  /** The flags after walking an extra-data chain: a marker sets the hidden bit. */
  function ExtraFlags(extra: seq<ExtraData>, flags: bv32): bv32 {
    if extra == [] then flags
    else ExtraFlags(extra[1..], if extra[0] == StringExtra(Marker) then flags | HiddenBit else flags)
  }

  /** The chain sets the hidden bit exactly when it holds a marker, and changes no other bit. */
  lemma {:induction false} ExtraFlagsMarker(extra: seq<ExtraData>, flags: bv32)
    ensures ExtraFlags(extra, flags) == if StringExtra(Marker) in extra then flags | HiddenBit else flags
  {
    if extra != [] {
      assert extra == [extra[0]] + extra[1..];
      if extra[0] == StringExtra(Marker) {
        ExtraFlagsMarker(extra[1..], flags | HiddenBit);
        HiddenTwice(flags);
      } else {
        ExtraFlagsMarker(extra[1..], flags);
      }
    }
  }

  lemma HiddenTwice(x: bv32)
    ensures (x | HiddenBit) | HiddenBit == x | HiddenBit
  {
  }

  const ExtraWarningText := "Unhandled extra data type "

  /** The warning for an extra-data record that is not a string, with its record type written out. */
  function ExtraWarning(recType: nat): (r: string)
    ensures |r| > |ExtraWarningText| && r[..|ExtraWarningText|] == ExtraWarningText
    ensures r[|ExtraWarningText|..] == NatToString(recType)
    ensures ParseDigits(r[|ExtraWarningText|..]) == recType
  {
    var r := ExtraWarningText + NatToString(recType);
    assert r[|ExtraWarningText|..] == NatToString(recType);
    ParseNatToString(recType);
    r
  }

  /**
   * The warning as the source builds it: a string literal plus an integer is
   * pointer arithmetic, which skips `recType` characters of the literal and
   * reads past its end (undefined, here None) once `recType` exceeds its length.
   */
  function ExtraWarningAsWritten(recType: nat): Option<string> {
    if recType <= |ExtraWarningText| then Some(ExtraWarningText[recType..]) else None
  }

  /** The message as written never is the intended one: it can never show the record type. */
  lemma ExtraWarningAsWrittenDiffers(recType: nat)
    ensures ExtraWarningAsWritten(recType) != Some(ExtraWarning(recType))
    ensures ExtraWarningAsWritten(recType).Some? ==> |ExtraWarningAsWritten(recType).value| <= |ExtraWarningText|
  {
  }

  /** For example, a record type of 5 gives the literal cut after "Unhan". */
  lemma ExtraWarningAsWrittenExample()
    ensures ExtraWarningAsWritten(5) == Some("dled extra data type ")
    ensures ExtraWarning(5) == "Unhandled extra data type 5"
  {
    assert NatToString(5) == "5";
  }

  /** The warnings of an extra-data chain, one per non-string record, in chain order. */
  function ExtraWarnings(extra: seq<ExtraData>): seq<string> {
    if extra == [] then []
    else (if extra[0].OtherExtra? then [ExtraWarning(extra[0].recType)] else []) + ExtraWarnings(extra[1..])
  }

  /** One record of the chain: the flags and warnings before record `prev` from those after it. */
  lemma ExtraStep(extra: seq<ExtraData>, prev: nat, next: int, f0: bv32, f1: bv32, w0: seq<string>, w1: seq<string>)
    requires next == prev + 1 <= |extra|
    requires f1 == if extra[prev] == StringExtra(Marker) then f0 | HiddenBit else f0
    requires w1 == w0 + (if extra[prev].OtherExtra? then [ExtraWarning(extra[prev].recType)] else [])
    ensures ExtraFlags(extra[next..], f1) == ExtraFlags(extra[prev..], f0)
    ensures w1 + ExtraWarnings(extra[next..]) == w0 + ExtraWarnings(extra[prev..])
  {
    assert extra[prev..][1..] == extra[next..];
  }

  /** The extra-data loop of createMeshes. */
  method ScanExtra(extra: seq<ExtraData>, flags: bv32) returns (f: bv32, warnings: seq<string>)
    ensures f == ExtraFlags(extra, flags)
    ensures warnings == ExtraWarnings(extra)
  {
    f := flags;
    warnings := [];
    var i := 0;
    while i < |extra|
      invariant 0 <= i <= |extra|
      invariant ExtraFlags(extra[i..], f) == ExtraFlags(extra, flags)
      invariant warnings + ExtraWarnings(extra[i..]) == ExtraWarnings(extra)
    {
      ghost var f0, w0 := f, warnings;
      match extra[i] {
        case StringExtra(text) =>
          if text == Marker {
            f := f | HiddenBit;
          }
        case OtherExtra(recType) =>
          warnings := warnings + [ExtraWarning(recType)];
      }
      ghost var prev := i;
      i := i + 1;
      ExtraStep(extra, prev, i, f0, f, w0, warnings);
    }
  }

  /* ---------------- the walk ---------------- */

  /** The flags createMeshes works with at `n`: inherited ones, the node's own, and the marker bit. */
  function NodeFlags(n: Node, inherited: bv32): bv32 {
    ExtraFlags(n.extra, inherited | n.flags)
  }

  /** A tri-shape reached by createMeshes, with the flags in force there. */
  datatype Visit = Visit(node: Node, flags: bv32)

  /** The tri-shapes createMeshes reaches from `n`, in the order it reaches them. */
  function Visits(n: Node, inherited: bv32): seq<Visit>
    decreases n, 1, 0
  {
    var f := NodeFlags(n, inherited);
    match n.kind
    case TriShape(_) => [Visit(n, f)]
    case Branch(_, _) => ChildVisits(n, 0, f)
    case Leaf(_) => []
  }

  function ChildVisits(n: Node, i: nat, f: bv32): seq<Visit>
    requires n.kind.Branch? && i <= |n.kind.children|
    decreases n, 0, |n.kind.children| - i
  {
    if i == |n.kind.children| then []
    else ChildSlotVisits(n.kind.children[i], f) + ChildVisits(n, i + 1, f)
  }

  /** The visits of one child slot; an empty slot is skipped. */
  function ChildSlotVisits(child: Option<Node>, f: bv32): seq<Visit>
    decreases child, 2
  {
    match child case Some(c) => Visits(c, f) case None => []
  }

  /** Every bit set in `y` is set in `x`. */
  predicate Includes(x: bv32, y: bv32) {
    x & y == y
  }

  lemma IncludesTrans(x: bv32, y: bv32, z: bv32)
    requires Includes(x, y) && Includes(y, z)
    ensures Includes(x, z)
  {
  }

  /** The flags at a node keep every inherited bit. */
  lemma NodeFlagsInclude(n: Node, inherited: bv32)
    ensures Includes(NodeFlags(n, inherited), inherited)
    ensures StringExtra(Marker) in n.extra ==> Includes(NodeFlags(n, inherited), HiddenBit)
  {
    ExtraFlagsMarker(n.extra, inherited | n.flags);
  }

  /**
   * Flags only accumulate down the tree: every tri-shape reached carries the
   * flags in force at `n`.
   */
  lemma {:induction false} VisitsInherit(n: Node, inherited: bv32)
    ensures forall v :: v in Visits(n, inherited) ==> Includes(v.flags, NodeFlags(n, inherited))
    decreases n, 1, 0
  {
    if n.kind.Branch? {
      ChildVisitsInherit(n, 0, NodeFlags(n, inherited));
    }
  }

  lemma {:induction false} ChildVisitsInherit(n: Node, i: nat, f: bv32)
    requires n.kind.Branch? && i <= |n.kind.children|
    ensures forall v :: v in ChildVisits(n, i, f) ==> Includes(v.flags, f)
    decreases n, 0, |n.kind.children| - i
  {
    if i < |n.kind.children| {
      if n.kind.children[i].Some? {
        var c := n.kind.children[i].value;
        VisitsInherit(c, f);
        NodeFlagsInclude(c, f);
        forall v | v in Visits(c, f) ensures Includes(v.flags, f) {
          IncludesTrans(v.flags, NodeFlags(c, f), f);
        }
      }
      ChildVisitsInherit(n, i + 1, f);
    }
  }

  /** No tri-shape ever loses a bit inherited from above. */
  lemma FlagsMonotone(n: Node, inherited: bv32)
    ensures forall v :: v in Visits(n, inherited) ==> Includes(v.flags, inherited)
  {
    VisitsInherit(n, inherited);
    NodeFlagsInclude(n, inherited);
    forall v | v in Visits(n, inherited) ensures Includes(v.flags, inherited) {
      IncludesTrans(v.flags, NodeFlags(n, inherited), inherited);
    }
  }

  /** A marker in a node's extra data hides every tri-shape of its subtree, and so does a hidden ancestor. */
  lemma MarkerHidesSubtree(n: Node, inherited: bv32)
    requires StringExtra(Marker) in n.extra || Includes(inherited, HiddenBit)
    ensures forall v :: v in Visits(n, inherited) ==> Includes(v.flags, HiddenBit)
  {
    VisitsInherit(n, inherited);
    NodeFlagsInclude(n, inherited);
    if !(StringExtra(Marker) in n.extra) {
      IncludesTrans(NodeFlags(n, inherited), inherited, HiddenBit);
    }
    forall v | v in Visits(n, inherited) ensures Includes(v.flags, HiddenBit) {
      IncludesTrans(v.flags, NodeFlags(n, inherited), HiddenBit);
    }
  }

  /** The NiTriShapes among `ns`, in order. */
  function TriShapes(ns: seq<Node>): (r: seq<Node>)
    ensures |r| <= |ns|
  {
    Filter(ns, (n: Node) => n.kind.TriShape?)
  }

  lemma TriShapesAppend(a: seq<Node>, b: seq<Node>)
    ensures TriShapes(a + b) == TriShapes(a) + TriShapes(b)
  {
    FilterAppend(a, b, (n: Node) => n.kind.TriShape?);
  }

  function VisitNodes(vs: seq<Visit>): (r: seq<Node>)
    ensures |r| == |vs| && forall i :: 0 <= i < |vs| ==> r[i] == vs[i].node
  {
    if vs == [] then [] else [vs[0].node] + VisitNodes(vs[1..])
  }

  /** createMeshes reaches exactly the tri-shapes of the pre-order walk, each once, in pre-order. */
  lemma {:induction false} VisitsArePreOrderTriShapes(n: Node, inherited: bv32)
    ensures VisitNodes(Visits(n, inherited)) == TriShapes(PreOrder(n))
    decreases n, 1, 0
  {
    var f := NodeFlags(n, inherited);
    match n.kind
    case TriShape(_) =>
      assert PreOrder(n) == [n];
    case Leaf(_) =>
      assert PreOrder(n) == [n];
    case Branch(_, _) =>
      ChildVisitsArePreOrder(n, 0, f);
      TriShapesAppend([n], ChildrenPreOrder(n, 0));
  }

  lemma {:induction false} ChildVisitsArePreOrder(n: Node, i: nat, f: bv32)
    requires n.kind.Branch? && i <= |n.kind.children|
    ensures VisitNodes(ChildVisits(n, i, f)) == TriShapes(ChildrenPreOrder(n, i))
    decreases n, 0, |n.kind.children| - i
  {
    if i < |n.kind.children| {
      var sub: seq<Node> := match n.kind.children[i] case Some(c) => PreOrder(c) case None => [];
      var vs := ChildSlotVisits(n.kind.children[i], f);
      if n.kind.children[i].Some? {
        VisitsArePreOrderTriShapes(n.kind.children[i].value, f);
      }
      ChildVisitsArePreOrder(n, i + 1, f);
      TriShapesAppend(sub, ChildrenPreOrder(n, i + 1));
      VisitNodesAppend(vs, ChildVisits(n, i + 1, f));
    }
  }

  lemma VisitNodesAppend(a: seq<Visit>, b: seq<Visit>)
    ensures VisitNodes(a + b) == VisitNodes(a) + VisitNodes(b)
  {
  }

  /* ---------------- registries ---------------- */

  /** The Ogre mesh manager's mesh names, the static loader table (by folded name), and the materials. */
  datatype MeshState = MeshState(meshes: set<string>, loaders: map<string, Loader>, mats: MaterialState)

  function FullName(self: Loader, n: Node): string {
    self.name + "@" + n.name
  }

  function ParentName(n: Node): string {
    match n.parent case Some(p) => p case None => ""
  }

  function ShapeProps(n: Node): seq<Option<Property>> {
    match n.kind case TriShape(shape) => shape.props case _ => []
  }

  /**
   * What createMeshes does at one tri-shape: an existing mesh of the full
   * name is reused; otherwise the loader entry for that name is overwritten
   * with a copy of `self`, which gets the shape's name and its material unless
   * the shape is hidden, and the mesh is created. The result is the
   * (mesh, parent name) pair, or the exception getMaterial threw.
   */
  function Step(st: MeshState, self: Loader, v: Visit, env: Environment): (MeshState, Result<(string, string), string>) {
    var fullname := FullName(self, v.node);
    var pair := (fullname, ParentName(v.node));
    if fullname in st.meshes then (st, Success(pair))
    else
      var key := Fold(fullname);
      if v.flags & HiddenBit != 0 then
        (st.(meshes := st.meshes + {fullname}, loaders := st.loaders[key := self]), Success(pair))
      else
        var loader := self.(shapeName := v.node.name);
        var (m, mats) := GetMaterialSpec(st.mats, ShapeProps(v.node), fullname, self.group, env);
        match m
        case Failure(e) => (st.(loaders := st.loaders[key := loader], mats := mats), Failure(e))
        case Success(material) =>
          (MeshState(st.meshes + {fullname}, st.loaders[key := loader.(materialName := material)], mats), Success(pair))
  }

  datatype RunResult = RunResult(state: MeshState, pairs: seq<(string, string)>, ok: bool)

  /** The steps of `vs` in order, stopping at the first exception. */
  function Run(st: MeshState, self: Loader, vs: seq<Visit>, env: Environment): RunResult
    decreases |vs|
  {
    if vs == [] then RunResult(st, [], true)
    else
      var (st1, r) := Step(st, self, vs[0], env);
      match r
      case Failure(_) => RunResult(st1, [], false)
      case Success(pair) =>
        var rest := Run(st1, self, vs[1..], env);
        RunResult(rest.state, [pair] + rest.pairs, rest.ok)
  }

  /** `r` preceded by pairs already emitted. */
  function After(pairs: seq<(string, string)>, r: RunResult): RunResult {
    RunResult(r.state, pairs + r.pairs, r.ok)
  }

  lemma {:induction false} RunAppend(st: MeshState, self: Loader, a: seq<Visit>, b: seq<Visit>, env: Environment)
    ensures Run(st, self, a + b, env) ==
      var r := Run(st, self, a, env);
      if r.ok then After(r.pairs, Run(r.state, self, b, env)) else r
    decreases |a|
  {
    if a == [] {
      assert a + b == b;
    } else {
      assert (a + b)[0] == a[0];
      assert (a + b)[1..] == a[1..] + b;
      var (st1, r) := Step(st, self, a[0], env);
      if r.Success? {
        RunAppend(st1, self, a[1..], b, env);
      }
    }
  }

  lemma RunSingle(st: MeshState, self: Loader, v: Visit, env: Environment)
    ensures Run(st, self, [v], env) ==
      var (st1, r) := Step(st, self, v, env);
      if r.Success? then RunResult(st1, [r.value], true) else RunResult(st1, [], false)
  {
    assert [v][1..] == [];
  }

  /** The pair createMeshes emits for a tri-shape. */
  function PairsOf(self: Loader, vs: seq<Visit>): (r: seq<(string, string)>)
    ensures |r| == |vs|
    ensures forall i :: 0 <= i < |vs| ==> r[i] == (FullName(self, vs[i].node), ParentName(vs[i].node))
  {
    if vs == [] then [] else [(FullName(self, vs[0].node), ParentName(vs[0].node))] + PairsOf(self, vs[1..])
  }

  /**
   * A walk that completes emits one pair per tri-shape, in order, and leaves
   * every full name registered as a mesh; no mesh is ever unregistered.
   */
  lemma {:induction false} RunEmitsAndRegisters(st: MeshState, self: Loader, vs: seq<Visit>, env: Environment)
    ensures var r := Run(st, self, vs, env);
      st.meshes <= r.state.meshes &&
      (r.ok ==> r.pairs == PairsOf(self, vs) && forall i :: 0 <= i < |vs| ==> FullName(self, vs[i].node) in r.state.meshes)
    decreases |vs|
  {
    if vs != [] {
      var (st1, r) := Step(st, self, vs[0], env);
      if r.Success? {
        RunEmitsAndRegisters(st1, self, vs[1..], env);
      }
    }
  }

  /** When every full name is already a mesh, the walk only emits the pairs. */
  lemma {:induction false} RunRegistered(st: MeshState, self: Loader, vs: seq<Visit>, env: Environment)
    requires forall i :: 0 <= i < |vs| ==> FullName(self, vs[i].node) in st.meshes
    ensures Run(st, self, vs, env) == RunResult(st, PairsOf(self, vs), true)
  {
    if vs != [] {
      RunRegistered(st, self, vs[1..], env);
    }
  }

  /** Walking the same tree again with the same loader emits the same pairs and changes nothing. */
  lemma RunIdempotent(st: MeshState, self: Loader, vs: seq<Visit>, env: Environment)
    requires Run(st, self, vs, env).ok
    ensures var r := Run(st, self, vs, env);
      Run(r.state, self, vs, env) == RunResult(r.state, r.pairs, true)
  {
    RunEmitsAndRegisters(st, self, vs, env);
    RunRegistered(Run(st, self, vs, env).state, self, vs, env);
  }

  /**
   * A newly registered mesh gets a loader that copies `self`; it names the
   * shape, and carries the material getMaterial returned, exactly when the
   * shape is not hidden.
   */
  lemma StepNewLoader(st: MeshState, self: Loader, v: Visit, env: Environment)
    requires FullName(self, v.node) !in st.meshes
    requires Step(st, self, v, env).1.Success?
    ensures var st1 := Step(st, self, v, env).0;
      var l := st1.loaders[Fold(FullName(self, v.node))];
      var m := GetMaterialSpec(st.mats, ShapeProps(v.node), FullName(self, v.node), self.group, env);
      st1.meshes == st.meshes + {FullName(self, v.node)} &&
      l.name == self.name && l.group == self.group && l.hasSkel == self.hasSkel &&
      (v.flags & HiddenBit != 0 ==> l == self && st1.mats == st.mats) &&
      (v.flags & HiddenBit == 0 ==> l.shapeName == v.node.name && m.0 == Success(l.materialName) && st1.mats == m.1)
  {
  }

  /** The names Ogre's skeleton manager holds. */
  class SkeletonRegistry {
    var names: set<string>

    constructor ()
      ensures names == {}
    {
      names := {};
    }
  }

  /** One child of createMeshes' loop: the child's walk continues the walk of the remaining children. */
  lemma ChildStep(pairs: seq<(string, string)>, s0: MeshState, s1: MeshState, p: seq<(string, string)>, okc: bool,
                  self: Loader, n: Node, i: nat, f: bv32, env: Environment)
    requires n.kind.Branch? && i < |n.kind.children|
    requires RunResult(s1, p, okc) == Run(s0, self, ChildSlotVisits(n.kind.children[i], f), env)
    ensures okc ==> After(pairs + p, Run(s1, self, ChildVisits(n, i + 1, f), env)) == After(pairs, Run(s0, self, ChildVisits(n, i, f), env))
    ensures !okc ==> RunResult(s1, pairs + p, false) == After(pairs, Run(s0, self, ChildVisits(n, i, f), env))
  {
    RunAppend(s0, self, ChildSlotVisits(n.kind.children[i], f), ChildVisits(n, i + 1, f), env);
    if okc {
      var rest := Run(s1, self, ChildVisits(n, i + 1, f), env);
      assert (pairs + p) + rest.pairs == pairs + (p + rest.pairs);
    }
  }

  /** Ogre's mesh manager and NIFMeshLoader's static loader table. */
  class MeshRegistry {
    var meshes: set<string>
    var loaders: map<string, Loader>

    constructor ()
      ensures meshes == {} && loaders == map[]
    {
      meshes := {};
      loaders := map[];
    }

    function State(mats: MaterialRegistry): MeshState
      reads this, mats
    {
      MeshState(meshes, loaders, mats.State())
    }

    /** The tri-shape case of createMeshes. */
    method RegisterShape(self: Loader, n: Node, f: bv32, mats: MaterialRegistry, env: Environment)
      returns (pair: (string, string), ok: bool)
      modifies this, mats
      ensures var (st, r) := Step(old(State(mats)), self, Visit(n, f), env);
        State(mats) == st && ok == r.Success? && (ok ==> pair == r.value)
    {
      var fullname := self.name + "@" + n.name;
      pair := (fullname, ParentName(n));
      ok := true;
      if fullname !in meshes {
        var key := Fold(fullname);
        if f & HiddenBit != 0 {
          loaders := loaders[key := self];
        } else {
          var loader := self.(shapeName := n.name);
          loaders := loaders[key := loader];
          var m := mats.GetMaterial(ShapeProps(n), fullname, self.group, env);
          if m.Failure? {
            ok := false;
            return;
          }
          loaders := loaders[key := loader.(materialName := m.value)];
        }
        meshes := meshes + {fullname};
      }
    }

    /**
     * NIFMeshLoader::createMeshes: ORs the node's flags into the inherited
     * ones, reads the extra-data chain, registers a tri-shape, and recurses
     * into the children of a NiNode. `ok` is false when getMaterial threw.
     */
    method CreateMeshes(self: Loader, n: Node, flags: bv32, mats: MaterialRegistry, env: Environment)
      returns (pairs: seq<(string, string)>, ok: bool)
      modifies this, mats
      ensures RunResult(State(mats), pairs, ok) == Run(old(State(mats)), self, Visits(n, flags), env)
      decreases n, 1
    {
      var f, _ := ScanExtra(n.extra, flags | n.flags);
      if n.kind.TriShape? {
        assert Visits(n, flags) == [Visit(n, f)];
        RunSingle(State(mats), self, Visit(n, f), env);
        var pair;
        pair, ok := RegisterShape(self, n, f, mats, env);
        pairs := if ok then [pair] else [];
      } else if n.kind.Branch? {
        assert Visits(n, flags) == ChildVisits(n, 0, f);
        pairs, ok := CreateChildMeshes(self, n, f, mats, env);
      } else {
        assert Visits(n, flags) == [];
        pairs, ok := [], true;
      }
    }

    /** The children loop of createMeshes, handing down the flags `f`. */
    method CreateChildMeshes(self: Loader, n: Node, f: bv32, mats: MaterialRegistry, env: Environment)
      returns (pairs: seq<(string, string)>, ok: bool)
      requires n.kind.Branch?
      modifies this, mats
      ensures RunResult(State(mats), pairs, ok) == Run(old(State(mats)), self, ChildVisits(n, 0, f), env)
      decreases n, 0
    {
      pairs, ok := [], true;
      var children := n.kind.children;
      var i := 0;
      while i < |children|
        invariant 0 <= i <= |children|
        invariant After(pairs, Run(State(mats), self, ChildVisits(n, i, f), env)) == Run(old(State(mats)), self, ChildVisits(n, 0, f), env)
      {
        ghost var s0 := State(mats);
        var p, okc := CreateSlotMeshes(self, children[i], f, mats, env);
        ChildStep(pairs, s0, State(mats), p, okc, self, n, i, f, env);
        pairs := pairs + p;
        if !okc {
          ok := false;
          return;
        }
        i := i + 1;
      }
    }

    /** One child slot of the loop: an empty slot is skipped. */
    method CreateSlotMeshes(self: Loader, child: Option<Node>, f: bv32, mats: MaterialRegistry, env: Environment)
      returns (pairs: seq<(string, string)>, ok: bool)
      modifies this, mats
      ensures RunResult(State(mats), pairs, ok) == Run(old(State(mats)), self, ChildSlotVisits(child, f), env)
      decreases child, 2
    {
      match child {
        case Some(c) =>
          pairs, ok := CreateMeshes(self, c, f, mats, env);
        case None =>
          pairs, ok := [], true;
      }
    }

    /**
     * NIFLoader::load: a file whose first record is not a node gives no
     * meshes; otherwise the skeleton is looked for first, and the meshes are
     * registered by a loader that records whether one was found.
     */
    method Load(name: string, group: string, file: FirstRecord, mats: MaterialRegistry, skels: SkeletonRegistry, env: Environment)
      returns (pairs: seq<(string, string)>, ok: bool)
      modifies this, mats, skels
      ensures !file.RootNode? ==> pairs == [] && ok && State(mats) == old(State(mats)) && skels.names == old(skels.names)
      ensures file.RootNode? ==>
        var search := CreateSkeleton(name, file.node, old(skels.names));
        skels.names == search.skeletons &&
        RunResult(State(mats), pairs, ok) == Run(old(State(mats)), TopLoader(name, group, search.found), Visits(file.node, 0), env)
    {
      match file {
        case RootNode(root) =>
          var search := CreateSkeleton(name, root, skels.names);
          skels.names := search.skeletons;
          pairs, ok := CreateMeshes(TopLoader(name, group, search.found), root, 0, mats, env);
        case _ =>
          pairs, ok := [], true;
      }
    }
  }

  /* ---------------- NIFLoader::load ---------------- */

  /** What the file's first record turned out to be. */
  datatype FirstRecord = NoRecords | NotANode(recName: string) | RootNode(node: Node)

  /** The loader that NIFLoader::load walks the file with. */
  function TopLoader(name: string, group: string, hasSkel: bool): Loader {
    Loader(name, group, "", "", hasSkel)
  }

  /**
   * A completed load emits one pair per tri-shape of the file, in pre-order,
   * naming the mesh "<file>@<shape>" and the shape's parent node.
   */
  lemma LoadEmitsPreOrder(st: MeshState, name: string, group: string, hasSkel: bool, root: Node, env: Environment)
    requires Run(st, TopLoader(name, group, hasSkel), Visits(root, 0), env).ok
    ensures var pairs := Run(st, TopLoader(name, group, hasSkel), Visits(root, 0), env).pairs;
      var shapes := TriShapes(PreOrder(root));
      |pairs| == |shapes| &&
      forall i :: 0 <= i < |shapes| ==> pairs[i] == (name + "@" + shapes[i].name, ParentName(shapes[i]))
  {
    RunEmitsAndRegisters(st, TopLoader(name, group, hasSkel), Visits(root, 0), env);
    VisitsArePreOrderTriShapes(root, 0);
  }

  /* ---------------- lazy load of one mesh ---------------- */

  /** The first tri-shape named `name` in `ns`. */
  function FirstNamed(ns: seq<Node>, name: string): (r: Option<Node>)
    ensures r.Some? ==> r.value.kind.TriShape? && r.value.name == name && r.value in ns
    ensures r.None? <==> forall i :: 0 <= i < |ns| ==> !(ns[i].kind.TriShape? && ns[i].name == name)
  {
    if ns == [] then None
    else if ns[0].kind.TriShape? && ns[0].name == name then Some(ns[0])
    else
      var r := FirstNamed(ns[1..], name);
      assert forall i :: 1 <= i < |ns| ==> ns[i] == ns[1..][i - 1];
      r
  }

  lemma {:induction false} FirstNamedAppend(a: seq<Node>, b: seq<Node>, name: string)
    ensures FirstNamed(a + b, name) == if FirstNamed(a, name).Some? then FirstNamed(a, name) else FirstNamed(b, name)
  {
    if a == [] {
      assert a + b == b;
    } else {
      assert (a + b)[0] == a[0];
      assert (a + b)[1..] == a[1..] + b;
      FirstNamedAppend(a[1..], b, name);
    }
  }

  /** findTriShape's search: the node it hands to handleNiTriShape, if any. */
  function FindShape(n: Node, name: string): Option<Node>
    decreases n, 1, 0
  {
    if n.kind.TriShape? && n.name == name then Some(n)
    else if n.kind.Branch? then FindShapeInChildren(n, 0, name)
    else None
  }

  function FindShapeInChildren(n: Node, i: nat, name: string): Option<Node>
    requires n.kind.Branch? && i <= |n.kind.children|
    decreases n, 0, |n.kind.children| - i
  {
    if i == |n.kind.children| then None
    else
      var r := FindShapeInSlot(n.kind.children[i], name);
      if r.Some? then r else FindShapeInChildren(n, i + 1, name)
  }

  function FindShapeInSlot(child: Option<Node>, name: string): Option<Node>
    decreases child, 2
  {
    match child case Some(c) => FindShape(c, name) case None => None
  }

  /** findTriShape finds the first tri-shape of that name in pre-order, and nothing when there is none. */
  lemma {:induction false} FindShapeIsFirstInPreOrder(n: Node, name: string)
    ensures FindShape(n, name) == FirstNamed(PreOrder(n), name)
    decreases n, 1, 0
  {
    if n.kind.Branch? {
      FindShapeInChildrenIsFirst(n, 0, name);
      FirstNamedAppend([n], ChildrenPreOrder(n, 0), name);
    } else {
      assert PreOrder(n) == [n];
    }
  }

  lemma {:induction false} FindShapeInChildrenIsFirst(n: Node, i: nat, name: string)
    requires n.kind.Branch? && i <= |n.kind.children|
    ensures FindShapeInChildren(n, i, name) == FirstNamed(ChildrenPreOrder(n, i), name)
    decreases n, 0, |n.kind.children| - i
  {
    if i < |n.kind.children| {
      var sub: seq<Node> := match n.kind.children[i] case Some(c) => PreOrder(c) case None => [];
      if n.kind.children[i].Some? {
        FindShapeIsFirstInPreOrder(n.kind.children[i].value, name);
      }
      FindShapeInChildrenIsFirst(n, i + 1, name);
      FirstNamedAppend(sub, ChildrenPreOrder(n, i + 1), name);
    }
  }

  /** Why loading a shape fails: a skin weight names a vertex past the end, or a skin bone is not in the skeleton. */
  datatype LoadError = VertexOutOfRange | BoneNotFound(name: string)

  datatype BoneAssignment = BoneAssignment(boneIndex: nat, vertexIndex: nat, weight: real)

  datatype SubMesh = SubMesh(
    name: string, vertexCount: nat, indexCount: nat,
    boneAssignments: seq<BoneAssignment>, material: Option<string>)

  /** The parts of an Ogre mesh that loading sets: its skeleton's name and its sub-meshes. */
  datatype MeshData = MeshData(skeletonName: Option<string>, subMeshes: seq<SubMesh>)

  /** Skeleton::getBone(name)->getHandle(): the handle of the bone of that name. */
  function BoneHandle(skeleton: seq<Bone>, name: string): (r: Option<nat>)
    ensures r.Some? ==> r.value < |skeleton| && skeleton[r.value].name == Some(name)
    ensures r.None? <==> !NameTaken(skeleton, name)
  {
    if skeleton == [] then None
    else if skeleton[|skeleton| - 1].name == Some(name) && !NameTaken(skeleton[..|skeleton| - 1], name) then Some(|skeleton| - 1)
    else
      var r := BoneHandle(skeleton[..|skeleton| - 1], name);
      assert forall j :: 0 <= j < |skeleton| - 1 ==> skeleton[..|skeleton| - 1][j] == skeleton[j];
      r
  }

  /** With unique bone names, the handle found is the one bone of that name. */
  lemma BoneHandleUnique(skeleton: seq<Bone>, name: string, k: nat)
    requires UniqueNames(skeleton) && k < |skeleton| && skeleton[k].name == Some(name)
    ensures BoneHandle(skeleton, name) == Some(k)
  {
    assert NameTaken(skeleton, name);
  }

  /** The assignments of one skin bone's weights, in order. */
  function WeightAssignments(handle: nat, ws: seq<VertWeight>): (r: seq<BoneAssignment>)
    ensures |r| == |ws| && forall j :: 0 <= j < |ws| ==> r[j] == BoneAssignment(handle, ws[j].vertex, ws[j].weight)
  {
    if ws == [] then []
    else WeightAssignments(handle, ws[..|ws| - 1]) + [BoneAssignment(handle, ws[|ws| - 1].vertex, ws[|ws| - 1].weight)]
  }

  /** The bone assignments of a skinned shape, skin bone by skin bone, or the first bone missing from the skeleton. */
  function Assignments(bones: seq<SkinBone>, skeleton: seq<Bone>): Result<seq<BoneAssignment>, LoadError> {
    if bones == [] then Success([])
    else
      match BoneHandle(skeleton, bones[0].name)
      case None => Failure(BoneNotFound(bones[0].name))
      case Some(h) =>
        match Assignments(bones[1..], skeleton)
        case Failure(e) => Failure(e)
        case Success(rest) => Success(WeightAssignments(h, bones[0].weights) + rest)
  }

  /** The number of (vertex, weight) pairs of a skin. */
  function TotalWeights(bones: seq<SkinBone>): nat {
    if bones == [] then 0 else |bones[0].weights| + TotalWeights(bones[1..])
  }

  /** The assignments fail exactly when some skin bone is not in the skeleton. */
  lemma {:induction false} AssignmentsFail(bones: seq<SkinBone>, skeleton: seq<Bone>)
    ensures Assignments(bones, skeleton).Failure? <==> exists b :: 0 <= b < |bones| && !NameTaken(skeleton, bones[b].name)
  {
    if bones != [] {
      AssignmentsFail(bones[1..], skeleton);
      assert forall b :: 1 <= b < |bones| ==> bones[b] == bones[1..][b - 1];
    }
  }

  /** The weight `j` of skin bone `b` is the assignment at its place in skin order, naming the bone's handle. */
  ghost predicate AssignedAt(bones: seq<SkinBone>, skeleton: seq<Bone>, r: seq<BoneAssignment>, b: nat, j: nat)
    requires b < |bones| && j < |bones[b].weights|
  {
    TotalWeights(bones[..b]) + j < |r| && BoneHandle(skeleton, bones[b].name).Some? &&
    r[TotalWeights(bones[..b]) + j] ==
      BoneAssignment(BoneHandle(skeleton, bones[b].name).value, bones[b].weights[j].vertex, bones[b].weights[j].weight)
  }

  /**
   * Every (bone, vertex, weight) triple of the skin becomes exactly one
   * assignment, at the triple's place in skin order, naming the bone's handle.
   */
  lemma AssignmentsSpec(bones: seq<SkinBone>, skeleton: seq<Bone>)
    requires Assignments(bones, skeleton).Success?
    ensures |Assignments(bones, skeleton).value| == TotalWeights(bones)
    ensures forall b: nat, j: nat :: b < |bones| && j < |bones[b].weights| ==>
      AssignedAt(bones, skeleton, Assignments(bones, skeleton).value, b, j)
  {
    AssignmentsLength(bones, skeleton);
    forall b: nat, j: nat | b < |bones| && j < |bones[b].weights|
      ensures AssignedAt(bones, skeleton, Assignments(bones, skeleton).value, b, j)
    {
      AssignmentAt(bones, skeleton, b, j);
    }
  }

  lemma {:induction false} AssignmentsLength(bones: seq<SkinBone>, skeleton: seq<Bone>)
    requires Assignments(bones, skeleton).Success?
    ensures |Assignments(bones, skeleton).value| == TotalWeights(bones)
  {
    if bones != [] {
      AssignmentsLength(bones[1..], skeleton);
    }
  }

  lemma {:induction false} AssignmentAt(bones: seq<SkinBone>, skeleton: seq<Bone>, b: nat, j: nat)
    requires Assignments(bones, skeleton).Success?
    requires b < |bones| && j < |bones[b].weights|
    ensures AssignedAt(bones, skeleton, Assignments(bones, skeleton).value, b, j)
  {
    var r := Assignments(bones, skeleton).value;
    var h := BoneHandle(skeleton, bones[0].name).value;
    var head := WeightAssignments(h, bones[0].weights);
    var rest := Assignments(bones[1..], skeleton).value;
    assert r == head + rest;
    AssignmentsLength(bones[1..], skeleton);
    if b == 0 {
      assert bones[..b] == [];
      assert r[j] == head[j];
    } else {
      AssignmentIndexShift(bones, b);
      assert bones[b] == bones[1..][b - 1];
      AssignmentAt(bones[1..], skeleton, b - 1, j);
      var k := TotalWeights(bones[1..][..b - 1]) + j;
      assert r[|head| + k] == rest[k];
    }
  }

  lemma AssignmentIndexShift(bones: seq<SkinBone>, b: nat)
    requires 0 < b <= |bones|
    ensures TotalWeights(bones[..b]) == |bones[0].weights| + TotalWeights(bones[1..][..b - 1])
  {
    assert bones[..b][1..] == bones[1..][..b - 1];
    assert bones[..b][0] == bones[0];
  }

  /** `r` preceded by the assignments already made. */
  function Prepend(out: seq<BoneAssignment>, r: Result<seq<BoneAssignment>, LoadError>): Result<seq<BoneAssignment>, LoadError> {
    match r case Success(rest) => Success(out + rest) case Failure(e) => Failure(e)
  }

  lemma PrependAssoc(x: seq<BoneAssignment>, y: seq<BoneAssignment>, r: Result<seq<BoneAssignment>, LoadError>)
    ensures Prepend(x, Prepend(y, r)) == Prepend(x + y, r)
  {
    if r.Success? {
      assert x + (y + r.value) == (x + y) + r.value;
    }
  }

  lemma AssignmentsFrom(bones: seq<SkinBone>, b: nat, next: int, skeleton: seq<Bone>, h: nat)
    requires b < |bones| && next == b + 1 && BoneHandle(skeleton, bones[b].name) == Some(h)
    ensures Assignments(bones[b..], skeleton) == Prepend(WeightAssignments(h, bones[b].weights), Assignments(bones[next..], skeleton))
  {
    assert bones[b..][1..] == bones[next..];
  }

  lemma WeightAssignmentsNext(out: seq<BoneAssignment>, handle: nat, ws: seq<VertWeight>, prev: nat, next: int)
    requires next == prev + 1 <= |ws|
    ensures (out + WeightAssignments(handle, ws[..prev])) + [BoneAssignment(handle, ws[prev].vertex, ws[prev].weight)] ==
      out + WeightAssignments(handle, ws[..next])
  {
    assert ws[..next][..prev] == ws[..prev];
  }

  /** The inner loop of the bone-weight assignment: one assignment per weight of a skin bone, in order. */
  method AppendWeights(out: seq<BoneAssignment>, handle: nat, ws: seq<VertWeight>) returns (r: seq<BoneAssignment>)
    ensures r == out + WeightAssignments(handle, ws)
  {
    r := out;
    var j := 0;
    while j < |ws|
      invariant 0 <= j <= |ws|
      invariant r == out + WeightAssignments(handle, ws[..j])
    {
      r := r + [BoneAssignment(handle, ws[j].vertex, ws[j].weight)];
      ghost var prev := j;
      j := j + 1;
      WeightAssignmentsNext(out, handle, ws, prev, j);
    }
    assert ws[..j] == ws;
  }

  /** The bone-weight loops at the end of handleNiTriShape. */
  method AssignBones(bones: seq<SkinBone>, skeleton: seq<Bone>) returns (r: Result<seq<BoneAssignment>, LoadError>)
    ensures r == Assignments(bones, skeleton)
  {
    var out: seq<BoneAssignment> := [];
    var b := 0;
    assert bones[b..] == bones;
    if Assignments(bones, skeleton).Success? {
      assert [] + Assignments(bones, skeleton).value == Assignments(bones, skeleton).value;
    }
    while b < |bones|
      invariant 0 <= b <= |bones|
      invariant Prepend(out, Assignments(bones[b..], skeleton)) == Assignments(bones, skeleton)
    {
      var h := BoneHandle(skeleton, bones[b].name);
      if h.None? {
        assert bones[b..][0] == bones[b];
        return Failure(BoneNotFound(bones[b].name));
      }
      ghost var before := out;
      out := AppendWeights(out, h.value, bones[b].weights);
      ghost var prev := b;
      b := b + 1;
      AssignmentsFrom(bones, prev, b, skeleton, h.value);
      PrependAssoc(before, WeightAssignments(h.value, bones[prev].weights), Assignments(bones[b..], skeleton));
    }
    assert Assignments(bones[b..], skeleton) == Success([]);
    assert out + [] == out;
    r := Success(out);
  }

  /** Every skin weight names a vertex of the shape (newVerts.at would throw otherwise). */
  predicate WeightsInRange(bones: seq<SkinBone>, vertexCount: nat) {
    forall b, j :: 0 <= b < |bones| && 0 <= j < |bones[b].weights| ==> bones[b].weights[j].vertex < vertexCount
  }

  function MaterialOf(self: Loader): Option<string> {
    if |self.materialName| > 0 then Some(self.materialName) else None
  }

  /**
   * handleNiTriShape: a skinned shape sets the mesh's skeleton to the file's
   * and is checked against its vertices and the skeleton; then one sub-mesh
   * named after the shape is added.
   */
  function HandleSpec(md: MeshData, self: Loader, n: Node, skeleton: seq<Bone>): Result<MeshData, LoadError>
    requires n.kind.TriShape?
  {
    var data := n.kind.shape.data;
    match n.kind.shape.skin
    case None =>
      Success(md.(subMeshes := md.subMeshes + [SubMesh(n.name, |data.vertices|, |data.triangles|, [], MaterialOf(self))]))
    case Some(skin) =>
      if !WeightsInRange(skin.bones, |data.vertices|) then Failure(VertexOutOfRange)
      else
        match Assignments(skin.bones, skeleton)
        case Failure(e) => Failure(e)
        case Success(made) =>
          Success(MeshData(Some(self.name), md.subMeshes + [SubMesh(n.name, |data.vertices|, |data.triangles|, made, MaterialOf(self))]))
  }

  /**
   * Loading a shape adds exactly one sub-mesh: its index count is the
   * shape's triangle-index count, its vertex count the shape's, it holds one
   * bone assignment per skin weight, and it carries the loader's material
   * when the loader has one. It fails exactly when a skinned shape has a
   * weight past its vertices or a bone the skeleton lacks.
   */
  lemma HandleCounts(md: MeshData, self: Loader, n: Node, skeleton: seq<Bone>)
    requires n.kind.TriShape?
    ensures var shape := n.kind.shape;
      HandleSpec(md, self, n, skeleton).Failure? <==>
        shape.skin.Some? &&
        (!WeightsInRange(shape.skin.value.bones, |shape.data.vertices|) ||
         exists b :: 0 <= b < |shape.skin.value.bones| && !NameTaken(skeleton, shape.skin.value.bones[b].name))
    ensures HandleSpec(md, self, n, skeleton).Success? ==>
      var shape := n.kind.shape;
      var md1 := HandleSpec(md, self, n, skeleton).value;
      |md1.subMeshes| == |md.subMeshes| + 1 && md1.subMeshes[..|md.subMeshes|] == md.subMeshes &&
      var sub := md1.subMeshes[|md.subMeshes|];
      sub.name == n.name &&
      sub.indexCount == |shape.data.triangles| &&
      sub.vertexCount == |shape.data.vertices| &&
      |sub.boneAssignments| == (if shape.skin.Some? then TotalWeights(shape.skin.value.bones) else 0) &&
      sub.material == (if self.materialName != "" then Some(self.materialName) else None) &&
      md1.skeletonName == (if shape.skin.Some? then Some(self.name) else md.skeletonName)
    ensures HandleSpec(md, self, n, skeleton).Success? ==>
      var skin, sub := n.kind.shape.skin, HandleSpec(md, self, n, skeleton).value.subMeshes[|md.subMeshes|];
      (skin.None? ==> sub.boneAssignments == []) &&
      (skin.Some? ==>
        sub.boneAssignments == Assignments(skin.value.bones, skeleton).value &&
        forall b: nat, j: nat :: b < |skin.value.bones| && j < |skin.value.bones[b].weights| ==>
          AssignedAt(skin.value.bones, skeleton, sub.boneAssignments, b, j))
  {
    if n.kind.shape.skin.Some? {
      AssignmentsFail(n.kind.shape.skin.value.bones, skeleton);
      if Assignments(n.kind.shape.skin.value.bones, skeleton).Success? {
        AssignmentsSpec(n.kind.shape.skin.value.bones, skeleton);
      }
    }
  }

  /** findTriShape followed by handleNiTriShape on the shape found. */
  function FindSpec(md: MeshData, self: Loader, n: Node, skeleton: seq<Bone>): Result<MeshData, LoadError> {
    match FindShape(n, self.shapeName)
    case None => Success(md)
    case Some(t) =>
      assert t.kind.TriShape? by { FindShapeIsFirstInPreOrder(n, self.shapeName); }
      HandleSpec(md, self, t, skeleton)
  }

  /**
   * NIFMeshLoader::loadResource: a loader without a shape (a hidden one)
   * only sets the skeleton, and only when the file has one; otherwise the
   * file's root is searched for the shape.
   */
  function LoadSpec(md: MeshData, self: Loader, root: Node, skeleton: seq<Bone>): Result<MeshData, LoadError> {
    if |self.shapeName| == 0 then Success(if self.hasSkel then md.(skeletonName := Some(self.name)) else md)
    else FindSpec(md, self, root, skeleton)
  }

  /** A shape-less loader never adds a sub-mesh; a shape that is not in the file leaves the mesh as it was. */
  lemma LoadShell(md: MeshData, self: Loader, root: Node, skeleton: seq<Bone>)
    ensures self.shapeName == "" ==>
      LoadSpec(md, self, root, skeleton).Success? &&
      LoadSpec(md, self, root, skeleton).value.subMeshes == md.subMeshes &&
      (LoadSpec(md, self, root, skeleton).value.skeletonName == Some(self.name) <==> self.hasSkel || md.skeletonName == Some(self.name))
    ensures self.shapeName != "" && (forall m :: m in PreOrder(root) ==> !(m.kind.TriShape? && m.name == self.shapeName)) ==>
      LoadSpec(md, self, root, skeleton) == Success(md)
  {
    FindShapeIsFirstInPreOrder(root, self.shapeName);
  }

  /** An Ogre mesh being loaded. */
  class Mesh {
    var skeletonName: Option<string>
    var subMeshes: seq<SubMesh>

    constructor ()
      ensures skeletonName == None && subMeshes == []
    {
      skeletonName := None;
      subMeshes := [];
    }

    function State(): MeshData
      reads this
    {
      MeshData(skeletonName, subMeshes)
    }
  }

  /** handleNiTriShape, for the counts and assignments it sets up; `err` is the exception it threw. */
  method HandleNiTriShape(self: Loader, n: Node, skeleton: seq<Bone>, mesh: Mesh) returns (err: Option<LoadError>)
    requires n.kind.TriShape?
    modifies mesh
    ensures err.None? <==> HandleSpec(old(mesh.State()), self, n, skeleton).Success?
    ensures err.None? ==> mesh.State() == HandleSpec(old(mesh.State()), self, n, skeleton).value
    ensures err.Some? ==> err.value == HandleSpec(old(mesh.State()), self, n, skeleton).error
    ensures err == Some(VertexOutOfRange) ==>
      mesh.subMeshes == old(mesh.subMeshes) && mesh.skeletonName == Some(self.name)
    ensures err.Some? && err.value.BoneNotFound? ==>
      mesh.subMeshes == old(mesh.subMeshes) && mesh.skeletonName == Some(self.name)
  {
    var shape := n.kind.shape;
    var made: seq<BoneAssignment> := [];
    if shape.skin.Some? {
      mesh.skeletonName := Some(self.name);
      if !WeightsInRange(shape.skin.value.bones, |shape.data.vertices|) {
        return Some(VertexOutOfRange);
      }
      var r := AssignBones(shape.skin.value.bones, skeleton);
      if r.Failure? {
        return Some(r.error);
      }
      made := r.value;
    }
    var material := if |self.materialName| > 0 then Some(self.materialName) else None;
    mesh.subMeshes := mesh.subMeshes + [SubMesh(n.name, |shape.data.vertices|, |shape.data.triangles|, made, material)];
    err := None;
  }

  /** NIFMeshLoader::findTriShape: true when the named shape was found (and handled). */
  method FindTriShape(self: Loader, n: Node, skeleton: seq<Bone>, mesh: Mesh) returns (found: bool, err: Option<LoadError>)
    modifies mesh
    ensures found <==> FindShape(n, self.shapeName).Some?
    ensures err.None? <==> FindSpec(old(mesh.State()), self, n, skeleton).Success?
    ensures err.None? ==> mesh.State() == FindSpec(old(mesh.State()), self, n, skeleton).value
    ensures err.Some? ==> err.value == FindSpec(old(mesh.State()), self, n, skeleton).error
    decreases n, 1
  {
    if n.kind.TriShape? && self.shapeName == n.name {
      err := HandleNiTriShape(self, n, skeleton, mesh);
      return true, err;
    }
    found, err := false, None;
    if n.kind.Branch? {
      found, err := FindInChildren(self, n, skeleton, mesh);
    }
  }

  /** The children loop of findTriShape. */
  method FindInChildren(self: Loader, n: Node, skeleton: seq<Bone>, mesh: Mesh) returns (found: bool, err: Option<LoadError>)
    requires n.kind.Branch?
    modifies mesh
    ensures found <==> FindShapeInChildren(n, 0, self.shapeName).Some?
    ensures var t := FindShapeInChildren(n, 0, self.shapeName);
      t.None? ==> err.None? && mesh.State() == old(mesh.State())
    ensures var t := FindShapeInChildren(n, 0, self.shapeName);
      t.Some? ==>
        t.value.kind.TriShape? &&
        (err.None? <==> HandleSpec(old(mesh.State()), self, t.value, skeleton).Success?) &&
        (err.None? ==> mesh.State() == HandleSpec(old(mesh.State()), self, t.value, skeleton).value) &&
        (err.Some? ==> err.value == HandleSpec(old(mesh.State()), self, t.value, skeleton).error)
    decreases n, 0
  {
    FindShapeInChildrenIsFirst(n, 0, self.shapeName);
    var children := n.kind.children;
    var i := 0;
    while i < |children|
      invariant 0 <= i <= |children|
      invariant FindShapeInChildren(n, i, self.shapeName) == FindShapeInChildren(n, 0, self.shapeName)
      invariant mesh.State() == old(mesh.State())
    {
      match children[i] {
        case Some(c) =>
          FindShapeIsFirstInPreOrder(c, self.shapeName);
          found, err := FindTriShape(self, c, skeleton, mesh);
          if found {
            return;
          }
        case None =>
      }
      ghost var prev := i;
      i := i + 1;
      FindChildrenStep(n, prev, i, self.shapeName);
    }
    found, err := false, None;
  }

  /** A child slot without the shape passes the search on to the next slot. */
  lemma FindChildrenStep(n: Node, prev: nat, next: int, name: string)
    requires n.kind.Branch? && next == prev + 1 <= |n.kind.children|
    requires FindShapeInSlot(n.kind.children[prev], name).None?
    ensures FindShapeInChildren(n, next, name) == FindShapeInChildren(n, prev, name)
  {
  }

  /** NIFMeshLoader::loadResource; `root` is the first record of the file the loader names. */
  method LoadResource(self: Loader, root: Node, skeleton: seq<Bone>, mesh: Mesh) returns (err: Option<LoadError>)
    modifies mesh
    ensures err.None? <==> LoadSpec(old(mesh.State()), self, root, skeleton).Success?
    ensures err.None? ==> mesh.State() == LoadSpec(old(mesh.State()), self, root, skeleton).value
    ensures err.Some? ==> err.value == LoadSpec(old(mesh.State()), self, root, skeleton).error
  {
    if |self.shapeName| == 0 {
      if self.hasSkel {
        mesh.skeletonName := Some(self.name);
      }
      return None;
    }
    var found;
    found, err := FindTriShape(self, root, skeleton, mesh);
  }
}
