/**
 * NIFSkeletonLoader: deciding whether a NIF needs a skeleton
 * (createSkeleton) and building the bone hierarchy (buildBones).
 */
module SkeletonLoader {
  import opened Wrappers
  import opened NifRecords

  /** Some node reachable in pre-order carries bone-transform data. */
  ghost predicate Skinned(n: Node) {
    exists m :: m in PreOrder(n) && m.hasBoneTrafo
  }

  /** The outcome of createSkeleton: whether it found a bone-bearing node, and the skeleton names afterwards. */
  datatype SkeletonSearch = SkeletonSearch(found: bool, skeletons: set<string>)

  /**
   * createSkeleton: a pre-order search that stops at the first node with
   * bone-transform data and, there, creates the skeleton `name` unless a
   * skeleton of that name already exists.
   */
  function CreateSkeleton(name: string, n: Node, skeletons: set<string>): (r: SkeletonSearch)
    ensures r.found <==> Skinned(n)
    ensures r.skeletons == if r.found then skeletons + {name} else skeletons
    decreases n, 1, 0
  {
    if n.hasBoneTrafo then
      SkeletonSearch(true, skeletons + {name})
    else if n.kind.Branch? then
      CreateSkeletonInChildren(name, n, 0, skeletons)
    else
      SkeletonSearch(false, skeletons)
  }

  /** The loop over the children `i..` of a branch, returning at the first child that found one. */
  function CreateSkeletonInChildren(name: string, n: Node, i: nat, skeletons: set<string>): (r: SkeletonSearch)
    requires n.kind.Branch? && i <= |n.kind.children|
    ensures r.found <==> exists m :: m in ChildrenPreOrder(n, i) && m.hasBoneTrafo
    ensures r.skeletons == if r.found then skeletons + {name} else skeletons
    decreases n, 0, |n.kind.children| - i
  {
    if i == |n.kind.children| then
      SkeletonSearch(false, skeletons)
    else
      match n.kind.children[i]
      case None => CreateSkeletonInChildren(name, n, i + 1, skeletons)
      case Some(c) =>
        var r := CreateSkeleton(name, c, skeletons);
        if r.found then r else CreateSkeletonInChildren(name, n, i + 1, skeletons)
  }

  /** A bone of a skeleton, stored at its handle; `name` is None for an anonymous bone. */
  datatype Bone = Bone(name: Option<string>, parent: Option<nat>, pose: Transform)

  /** Skeleton::hasBone: a bone of that name exists. */
  predicate NameTaken(bones: seq<Bone>, name: string) {
    exists j :: 0 <= j < |bones| && bones[j].name == Some(name)
  }

  /** The bone buildBones creates for `n`: named after `n` unless that name is taken, posed at `n`'s transform. */
  function NewBone(bones: seq<Bone>, n: Node, parent: Option<nat>): Bone {
    Bone(if NameTaken(bones, n.name) then None else Some(n.name), parent, n.transform)
  }

  /** The bones after buildBones(n, parent) ran on a skeleton holding `bones`. */
  function Built(bones: seq<Bone>, n: Node, parent: Option<nat>): (r: seq<Bone>)
    requires n.kind.Branch?
    ensures |r| > |bones|
    decreases n, 1, 0
  {
    BuiltChildren(bones + [NewBone(bones, n, parent)], n, 0, |bones|)
  }

  /** The loop of buildBones over the children `i..` of `n`, whose bone has handle `self`. */
  function BuiltChildren(bones: seq<Bone>, n: Node, i: nat, self: nat): (r: seq<Bone>)
    requires n.kind.Branch? && i <= |n.kind.children|
    ensures |r| >= |bones|
    decreases n, 0, |n.kind.children| - i
  {
    if i == |n.kind.children| then bones
    else BuiltChildren(BuiltSlot(bones, n, i, self), n, i + 1, self)
  }

  /** One turn of that loop: a NiNode in the `i`th child slot gets its bones, anything else none. */
  function BuiltSlot(bones: seq<Bone>, n: Node, i: nat, self: nat): (r: seq<Bone>)
    requires n.kind.Branch? && i < |n.kind.children|
    decreases n, 0, |n.kind.children| - i, 0
  {
    match n.kind.children[i]
    case Some(c) => if c.kind.Branch? then Built(bones, c, Some(self)) else bones
    case None => bones
  }

  /** The NiNodes among `ns`, in order. */
  function Branches(ns: seq<Node>): (r: seq<Node>)
    ensures |r| <= |ns|
  {
    Filter(ns, (n: Node) => n.kind.Branch?)
  }

  lemma BranchesAppend(a: seq<Node>, b: seq<Node>)
    ensures Branches(a + b) == Branches(a) + Branches(b)
  {
    FilterAppend(a, b, (n: Node) => n.kind.Branch?);
  }

  /** `c` hangs directly under the NiNode `p`. */
  predicate ChildOf(c: Node, p: Node) {
    p.kind.Branch? && Some(c) in p.kind.children
  }

  /**
   * The parent handle of each NiNode of `Branches(PreOrder(n))`, read off the
   * tree alone: `n`, whose bone gets handle `base`, hangs under `parent`, and
   * every other NiNode under the NiNode it is a child of. Handles run in
   * pre-order from `base`.
   */
  function TreeParents(n: Node, base: nat, parent: Option<nat>): seq<Option<nat>>
    requires n.kind.Branch?
    decreases n, 1, 0
  {
    [parent] + ChildrenTreeParents(n, 0, base + 1, base)
  }

  /** The parent handles for the children `i..` of `n` (handle `self`), the first of them getting handle `next`. */
  function ChildrenTreeParents(n: Node, i: nat, next: nat, self: nat): seq<Option<nat>>
    requires n.kind.Branch? && i <= |n.kind.children|
    decreases n, 0, |n.kind.children| - i
  {
    if i == |n.kind.children| then []
    else
      var here := SlotTreeParents(n, i, next, self);
      here + ChildrenTreeParents(n, i + 1, next + |here|, self)
  }

  /** The parent handles for the NiNodes under the `i`th child slot of `n`. */
  function SlotTreeParents(n: Node, i: nat, next: nat, self: nat): seq<Option<nat>>
    requires n.kind.Branch? && i < |n.kind.children|
    decreases n, 0, |n.kind.children| - i, 0
  {
    match n.kind.children[i]
    case Some(c) => if c.kind.Branch? then TreeParents(c, next, Some(self)) else []
    case None => []
  }

  /**
   * `ps` pairs each NiNode of `ns` after the first with an earlier one that
   * holds it as a child: `ps[j]` is the handle `base + p` of such an `ns[p]`.
   */
  ghost predicate ParentsInTree(ps: seq<Option<nat>>, ns: seq<Node>, base: nat) {
    |ps| == |ns| &&
    forall j {:trigger ps[j]} :: 0 < j < |ps| ==>
      ps[j].Some? && base <= ps[j].value < base + j && ChildOf(ns[j], ns[ps[j].value - base])
  }

  /**
   * TreeParents pairs each NiNode with its parent in the tree: the first entry
   * (for `n` itself) is `parent`, and every later NiNode points at the handle
   * of an earlier NiNode that holds it as a child.
   */
  lemma {:induction false} TreeParentsSpec(n: Node, base: nat, parent: Option<nat>)
    requires n.kind.Branch?
    ensures ParentsInTree(TreeParents(n, base, parent), Branches(PreOrder(n)), base)
    ensures Branches(PreOrder(n))[0] == n && TreeParents(n, base, parent)[0] == parent
    decreases n, 1, 0
  {
    ChildrenTreeParentsSpec(n, 0, base + 1, base);
    BranchesAppend([n], ChildrenPreOrder(n, 0));
    assert Branches(PreOrder(n)) == [n] + Branches(ChildrenPreOrder(n, 0));
    RootParents(ChildrenTreeParents(n, 0, base + 1, base), Branches(ChildrenPreOrder(n, 0)), base, parent, n);
  }

  /**
   * Like ParentsInTree for the NiNodes `ns` below the children of `owner`, whose
   * bone has handle `self` and whose first NiNode gets handle `next`: each
   * points at `self` and is a child of `owner`, or at an earlier one of `ns`
   * that holds it as a child.
   */
  ghost predicate ChildrenParentsInTree(ps: seq<Option<nat>>, ns: seq<Node>, next: nat, self: nat, owner: Node) {
    |ps| == |ns| &&
    forall j {:trigger ps[j]} :: 0 <= j < |ps| ==>
      ps[j].Some? &&
      ((ps[j].value == self && ChildOf(ns[j], owner)) ||
       (next <= ps[j].value < next + j && ChildOf(ns[j], ns[ps[j].value - next])))
  }

  /** Putting `owner` (handle `base`, hanging under `parent`) in front of the NiNodes below it. */
  lemma RootParents(ps: seq<Option<nat>>, ns: seq<Node>, base: nat, parent: Option<nat>, owner: Node)
    requires ChildrenParentsInTree(ps, ns, base + 1, base, owner)
    ensures ParentsInTree([parent] + ps, [owner] + ns, base)
  {
    var ps', ns' := [parent] + ps, [owner] + ns;
    forall j | 0 < j < |ps'|
      ensures ps'[j].Some? && base <= ps'[j].value < base + j && ChildOf(ns'[j], ns'[ps'[j].value - base])
    {
      assert ps'[j] == ps[j - 1] && ns'[j] == ns[j - 1];
      if ps[j - 1].value != base {
        assert ns'[ps'[j].value - base] == ns[ps'[j].value - base - 1];
      }
    }
  }

  /** The NiNodes of a child subtree of `owner`, seen from `owner`'s loop. */
  lemma SubtreeParents(ps: seq<Option<nat>>, ns: seq<Node>, next: nat, self: nat, owner: Node)
    requires ParentsInTree(ps, ns, next) && |ps| > 0 && ps[0] == Some(self) && ChildOf(ns[0], owner)
    ensures ChildrenParentsInTree(ps, ns, next, self, owner)
  {
  }

  /** The NiNodes of two successive stretches of `owner`'s children, together. */
  lemma ChildrenParentsAppend(ps1: seq<Option<nat>>, ns1: seq<Node>, ps2: seq<Option<nat>>, ns2: seq<Node>, next: nat, self: nat, owner: Node)
    requires ChildrenParentsInTree(ps1, ns1, next, self, owner)
    requires ChildrenParentsInTree(ps2, ns2, next + |ps1|, self, owner)
    ensures ChildrenParentsInTree(ps1 + ps2, ns1 + ns2, next, self, owner)
  {
    var ps, ns := ps1 + ps2, ns1 + ns2;
    forall j | 0 <= j < |ps|
      ensures ps[j].Some? &&
        ((ps[j].value == self && ChildOf(ns[j], owner)) ||
         (next <= ps[j].value < next + j && ChildOf(ns[j], ns[ps[j].value - next])))
    {
      if j < |ps1| {
        assert ps[j] == ps1[j] && ns[j] == ns1[j];
        if ps1[j].value != self {
          assert ns[ps[j].value - next] == ns1[ps[j].value - next];
        }
      } else {
        assert ps[j] == ps2[j - |ps1|] && ns[j] == ns2[j - |ps1|];
        if ps2[j - |ps1|].value != self {
          assert ns[ps[j].value - next] == ns2[ps[j].value - next - |ps1|];
        }
      }
    }
  }

  lemma {:induction false} ChildrenTreeParentsSpec(n: Node, i: nat, next: nat, self: nat)
    requires n.kind.Branch? && i <= |n.kind.children|
    ensures ChildrenParentsInTree(ChildrenTreeParents(n, i, next, self), Branches(ChildrenPreOrder(n, i)), next, self, n)
    decreases n, 0, |n.kind.children| - i
  {
    if i == |n.kind.children| {
      assert ChildrenPreOrder(n, i) == [];
      assert Branches([]) == [];
    } else {
      var sub: seq<Node> := match n.kind.children[i] case Some(c) => PreOrder(c) case None => [];
      var here := SlotTreeParents(n, i, next, self);
      assert ChildrenPreOrder(n, i) == sub + ChildrenPreOrder(n, i + 1);
      BranchesAppend(sub, ChildrenPreOrder(n, i + 1));
      SlotTreeParentsSpec(n, i, next, self);
      ChildrenTreeParentsSpec(n, i + 1, next + |here|, self);
      ChildrenParentsAppend(here, Branches(sub), ChildrenTreeParents(n, i + 1, next + |here|, self),
        Branches(ChildrenPreOrder(n, i + 1)), next, self, n);
    }
  }

  /** The NiNodes of the `i`th child slot of `n`, seen from `n`'s loop. */
  lemma {:induction false} SlotTreeParentsSpec(n: Node, i: nat, next: nat, self: nat)
    requires n.kind.Branch? && i < |n.kind.children|
    ensures var sub: seq<Node> := match n.kind.children[i] case Some(c) => PreOrder(c) case None => [];
      ChildrenParentsInTree(SlotTreeParents(n, i, next, self), Branches(sub), next, self, n)
    decreases n, 0, |n.kind.children| - i, 1
  {
    match n.kind.children[i] {
      case None =>
      case Some(c) =>
        if c.kind.Branch? {
          TreeParentsSpec(c, next, Some(self));
          assert ChildOf(c, n);
          SubtreeParents(TreeParents(c, next, Some(self)), Branches(PreOrder(c)), next, self, n);
        } else {
          assert PreOrder(c) == [c];
          assert Branches([c]) == [];
        }
    }
  }

  /** The parent handles of `bones`, in order. */
  function Parents(bones: seq<Bone>): (r: seq<Option<nat>>)
    ensures |r| == |bones| && forall k :: 0 <= k < |bones| ==> r[k] == bones[k].parent
  {
    seq(|bones|, k requires 0 <= k < |bones| => bones[k].parent)
  }

  /** Named bones have distinct names (Ogre keeps bones by name as well as by handle). */
  ghost predicate UniqueNames(bones: seq<Bone>) {
    forall i, j :: 0 <= i < j < |bones| && bones[j].name.Some? ==> bones[i].name != bones[j].name
  }

  /**
   * `r` is `bones` followed by one new bone per node of `ns`, each named by the
   * first-writer-wins rule at its creation, posed at its node, and attached to
   * the parent handle `ps` gives it.
   */
  ghost predicate Grows(bones: seq<Bone>, r: seq<Bone>, ns: seq<Node>, ps: seq<Option<nat>>) {
    |r| == |bones| + |ns| && |ps| == |ns| && r[..|bones|] == bones &&
    forall k :: |bones| <= k < |r| ==> r[k] == NewBone(r[..k], ns[k - |bones|], ps[k - |bones|])
  }

  lemma GrowsCompose(a: seq<Bone>, b: seq<Bone>, c: seq<Bone>, ns1: seq<Node>, ns2: seq<Node>, ps1: seq<Option<nat>>, ps2: seq<Option<nat>>)
    requires Grows(a, b, ns1, ps1) && Grows(b, c, ns2, ps2)
    ensures Grows(a, c, ns1 + ns2, ps1 + ps2)
  {
    assert c[..|a|] == c[..|b|][..|a|];
    forall k | |a| <= k < |b|
      ensures c[k] == NewBone(c[..k], (ns1 + ns2)[k - |a|], (ps1 + ps2)[k - |a|])
    {
      assert c[k] == c[..|b|][k];
      assert c[..k] == c[..|b|][..k];
    }
  }

  /**
   * buildBones creates exactly one bone per NiNode it reaches (the NiNodes of
   * the pre-order), in pre-order, each named by the first-writer-wins rule,
   * posed at its node and attached to the bone of its parent in the tree (the
   * first to `parent`). Existing bones are untouched.
   */
  lemma {:induction false} BuiltShape(bones: seq<Bone>, n: Node, parent: Option<nat>)
    requires n.kind.Branch?
    ensures Grows(bones, Built(bones, n, parent), Branches(PreOrder(n)), TreeParents(n, |bones|, parent))
    decreases n, 1, 0
  {
    var b1 := bones + [NewBone(bones, n, parent)];
    BuiltChildrenShape(b1, n, 0, |bones|);
    BranchesAppend([n], ChildrenPreOrder(n, 0));
    assert Branches([n]) == [n];
    assert Grows(bones, b1, [n], [parent]) by {
      assert b1[..|bones|] == bones;
    }
    GrowsCompose(bones, b1, Built(bones, n, parent), [n], Branches(ChildrenPreOrder(n, 0)),
      [parent], ChildrenTreeParents(n, 0, |bones| + 1, |bones|));
  }

  /**
   * The parents buildBones gives, in the tree's terms: the first new bone hangs
   * under `parent`; every later one under the bone of an earlier NiNode that
   * holds its NiNode as a child.
   */
  lemma BuiltParents(bones: seq<Bone>, n: Node, parent: Option<nat>)
    requires n.kind.Branch?
    ensures |Built(bones, n, parent)| == |bones| + |Branches(PreOrder(n))|
    ensures Built(bones, n, parent)[|bones|].parent == parent
    ensures ParentsInTree(Parents(Built(bones, n, parent)[|bones|..]), Branches(PreOrder(n)), |bones|)
  {
    BuiltShape(bones, n, parent);
    TreeParentsSpec(n, |bones|, parent);
    var r := Built(bones, n, parent);
    assert Parents(r[|bones|..]) == TreeParents(n, |bones|, parent);
  }

  lemma {:induction false} BuiltChildrenShape(bones: seq<Bone>, n: Node, i: nat, self: nat)
    requires n.kind.Branch? && i <= |n.kind.children|
    ensures Grows(bones, BuiltChildren(bones, n, i, self), Branches(ChildrenPreOrder(n, i)),
      ChildrenTreeParents(n, i, |bones|, self))
    decreases n, 0, |n.kind.children| - i
  {
    if i == |n.kind.children| {
      assert BuiltChildren(bones, n, i, self) == bones;
      assert bones[..|bones|] == bones;
    } else {
      var sub: seq<Node> := match n.kind.children[i] case Some(c) => PreOrder(c) case None => [];
      var next := BuiltSlot(bones, n, i, self);
      assert ChildrenPreOrder(n, i) == sub + ChildrenPreOrder(n, i + 1);
      BranchesAppend(sub, ChildrenPreOrder(n, i + 1));
      SlotGrows(bones, n, i, self);
      BuiltChildrenShape(next, n, i + 1, self);
      GrowsCompose(bones, next, BuiltChildren(next, n, i + 1, self), Branches(sub), Branches(ChildrenPreOrder(n, i + 1)),
        SlotTreeParents(n, i, |bones|, self), ChildrenTreeParents(n, i + 1, |next|, self));
    }
  }

  /** One turn of the loop of buildBones, in terms of Grows. */
  lemma {:induction false} SlotGrows(bones: seq<Bone>, n: Node, i: nat, self: nat)
    requires n.kind.Branch? && i < |n.kind.children|
    ensures var sub: seq<Node> := match n.kind.children[i] case Some(c) => PreOrder(c) case None => [];
      Grows(bones, BuiltSlot(bones, n, i, self), Branches(sub), SlotTreeParents(n, i, |bones|, self))
    decreases n, 0, |n.kind.children| - i, 1
  {
    match n.kind.children[i]
    case None =>
      assert bones[..|bones|] == bones;
    case Some(c) =>
      if c.kind.Branch? {
        BuiltShape(bones, c, Some(self));
      } else {
        assert PreOrder(c) == [c];
        assert Branches([c]) == [];
        assert bones[..|bones|] == bones;
      }
  }

  /** buildBones never gives two bones the same name. */
  lemma BuiltUniqueNames(bones: seq<Bone>, n: Node, parent: Option<nat>)
    requires n.kind.Branch? && UniqueNames(bones)
    ensures UniqueNames(Built(bones, n, parent))
  {
    BuiltShape(bones, n, parent);
    var r := Built(bones, n, parent);
    forall i, j | 0 <= i < j < |r| && r[j].name.Some?
      ensures r[i].name != r[j].name
    {
      if j >= |bones| {
        assert r[i] == r[..j][i];
      } else {
        assert r[i] == bones[i] && r[j] == bones[j];
      }
    }
  }

  /** An Ogre skeleton under construction: its bones, indexed by handle. */
  class Skeleton {
    var bones: seq<Bone>

    constructor ()
      ensures bones == []
    {
      bones := [];
    }

    predicate HasBone(name: string)
      reads this
    {
      NameTaken(bones, name)
    }

    /**
     * buildBones: creates the bone of `n` (named after it unless a bone of that
     * name exists), attaches it to `parent`, and recurses into the NiNode children.
     */
    method BuildBones(n: Node, parent: Option<nat>)
      requires n.kind.Branch?
      modifies this
      ensures bones == Built(old(bones), n, parent)
      decreases n
    {
      var self := |bones|;
      var name := if HasBone(n.name) then None else Some(n.name);
      bones := bones + [Bone(name, parent, n.transform)];
      var i := 0;
      while i < |n.kind.children|
        invariant 0 <= i <= |n.kind.children|
        invariant self < |bones|
        invariant BuiltChildren(bones, n, i, self) == Built(old(bones), n, parent)
      {
        match n.kind.children[i] {
          case Some(c) =>
            if c.kind.Branch? {
              BuildBones(c, Some(self));
            }
          case None =>
        }
        i := i + 1;
      }
    }

    /** NIFSkeletonLoader::loadResource: builds the bones of the file's root NiNode. */
    method LoadResource(root: Node)
      requires root.kind.Branch?
      modifies this
      ensures bones == Built(old(bones), root, None)
    {
      BuildBones(root, None);
    }
  }
}
