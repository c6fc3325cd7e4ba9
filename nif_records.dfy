/**
 * The parsed NIF scene graph that the loader reads: nodes, their extra-data
 * chains, tri-shapes with their property lists, geometry and skin records.
 * The binary parser that produces these values is not part of this model.
 */
module NifRecords {
  import opened Wrappers

  type Vec2 = (real, real)
  type Vec3 = (real, real, real)
  type Vec4 = (real, real, real, real)

  /** A node's local transform: a row-major 3x3 rotation, a translation and a uniform scale. */
  datatype Transform = Transform(rotation: seq<real>, position: Vec3, scale: real)

  /** Record types of NiNode and its subclasses. */
  datatype BranchType = NiNodeRecord | RootCollisionNode | OtherBranch(recName: string)

  /** Record types of nodes that are neither NiNodes nor tri-shapes. */
  datatype LeafType = NiRotatingParticles | OtherLeaf(recName: string)

  /** One link of a node's extra-data chain, in chain order. */
  datatype ExtraData = StringExtra(text: string) | OtherExtra(recType: nat)

  datatype SourceTexture = External(filename: string) | Internal

  /** Slot 0 of a texturing property: whether it is in use and the texture it names. */
  datatype TextureSlot = TextureSlot(inUse: bool, source: SourceTexture)

  datatype MaterialData = MaterialData(
    ambient: Vec3, diffuse: Vec3, specular: Vec3, emissive: Vec3,
    glossiness: real, alpha: real)

  /** Surface properties; `flags` of an alpha property is the int the parser stored. */
  datatype Property =
    | Texturing(base: TextureSlot)
    | Material(data: MaterialData)
    | AlphaProperty(flags: int, threshold: int)
    | OtherProperty(recName: string)

  datatype VertWeight = VertWeight(vertex: nat, weight: real)

  /** One bone of a skin: the name of its bone node and the (vertex, weight) pairs it influences. */
  datatype SkinBone = SkinBone(name: string, weights: seq<VertWeight>)

  /** A skin instance with its skin data, bone by bone. */
  datatype SkinInstance = SkinInstance(bones: seq<SkinBone>)

  datatype GeometryData = GeometryData(
    vertices: seq<Vec3>, normals: seq<Vec3>, colors: seq<Vec4>,
    uvSets: seq<seq<Vec2>>, triangles: seq<int>)

  /** What a NiTriShape adds to a node; an empty property-list entry is `None`. */
  datatype Shape = Shape(props: seq<Option<Property>>, data: GeometryData, skin: Option<SkinInstance>)

  datatype NodeKind =
    | Branch(branch: BranchType, children: seq<Option<Node>>)
    | TriShape(shape: Shape)
    | Leaf(leaf: LeafType)

  /**
   * A scene-graph node; an empty child slot is `None`. `parent` is the name of
   * the node the parser recorded as this node's parent (None for the root).
   */
  datatype Node = Node(
    name: string, flags: bv32, transform: Transform, hasBoneTrafo: bool,
    extra: seq<ExtraData>, parent: Option<string>, kind: NodeKind)

  /** Bit 0x01 of the inherited flags: the subtree is an editor-only marker. */
  const HiddenBit: bv32 := 0x01

  /**
   * Every node reachable from `n` through non-empty children of NiNodes,
   * in pre-order: the order in which all the recursive walks of the loader
   * visit nodes.
   */
  function PreOrder(n: Node): (r: seq<Node>)
    ensures |r| >= 1 && r[0] == n
    decreases n, 1, 0
  {
    [n] + (if n.kind.Branch? then ChildrenPreOrder(n, 0) else [])
  }

  /** Pre-order of the children `i..` of a branch node, one subtree after the other. */
  function ChildrenPreOrder(n: Node, i: nat): seq<Node>
    requires n.kind.Branch? && i <= |n.kind.children|
    decreases n, 0, |n.kind.children| - i
  {
    if i == |n.kind.children| then []
    else
      (match n.kind.children[i]
       case None => []
       case Some(c) => PreOrder(c))
      + ChildrenPreOrder(n, i + 1)
  }

  /** The elements of `s` that satisfy `p`, in order. */
  function Filter<T>(s: seq<T>, p: T -> bool): (r: seq<T>)
    ensures |r| <= |s|
  {
    if s == [] then [] else (if p(s[0]) then [s[0]] else []) + Filter(s[1..], p)
  }

  lemma {:induction false} FilterAppend<T>(a: seq<T>, b: seq<T>, p: T -> bool)
    ensures Filter(a + b, p) == Filter(a, p) + Filter(b, p)
  {
    if a == [] {
      assert a + b == b;
    } else {
      assert Filter(a + b, p) == (if p(a[0]) then [a[0]] else []) + Filter(a[1..] + b, p) by {
        assert (a + b)[0] == a[0] && (a + b)[1..] == a[1..] + b;
      }
      FilterAppend(a[1..], b, p);
    }
  }

  /** A child of a branch is below the branch: its whole pre-order is part of the branch's. */
  lemma {:induction false} ChildPreOrder(n: Node, i: nat, c: Node)
    requires n.kind.Branch? && i < |n.kind.children| && n.kind.children[i] == Some(c)
    ensures forall m :: m in PreOrder(c) ==> m in PreOrder(n)
  {
    ChildrenPreOrderFrom(n, 0, i);
  }

  lemma {:induction false} ChildrenPreOrderFrom(n: Node, j: nat, i: nat)
    requires n.kind.Branch? && j <= i < |n.kind.children| && n.kind.children[i].Some?
    ensures forall m :: m in PreOrder(n.kind.children[i].value) ==> m in ChildrenPreOrder(n, j)
    decreases i - j
  {
    if j < i {
      ChildrenPreOrderFrom(n, j + 1, i);
    }
  }
}
