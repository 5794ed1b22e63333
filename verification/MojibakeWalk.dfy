/** The in-place repair of a parsed JSON tree: nested dictionaries and lists, rewritten where they stand. */
module MojibakeWalk {
  import opened Utf8
  import opened Mojibake

  /** A slot of a container: a string, a scalar the walk ignores, or another container. */
  datatype Value = Txt(t: Text) | Atom(n: int) | Ref(node: Container)

  /** A dictionary, with its keys in insertion order, or a list, which has none. */
  class Container {
    const isDict: bool
    const keys: seq<string>
    var values: seq<Value>

    constructor (isDict: bool, keys: seq<string>, values: seq<Value>)
      ensures this.isDict == isDict && this.keys == keys && this.values == values
    {
      this.isDict, this.keys, this.values := isDict, keys, values;
    }
  }

  /** A picture of a tree on the heap: its contents, and which object holds them. */
  datatype Shape =
    | STxt(t: Text)
    | SAtom(n: int)
    | SNode(node: Container, kids: seq<Shape>)

  function Slot(s: Shape): Value {
    match s
    case STxt(t) => Txt(t)
    case SAtom(n) => Atom(n)
    case SNode(node, _) => Ref(node)
  }

  ghost function Footprint(s: Shape): set<Container> {
    match s
    case SNode(node, kids) => {node} + set i, x | 0 <= i < |kids| && x in Footprint(kids[i]) :: x
    case _ => {}
  }

  /** No container occurs twice: what a JSON parser builds. */
  ghost predicate Tree(s: Shape) {
    s.SNode? ==>
      && (forall i :: 0 <= i < |s.kids| ==> s.node !in Footprint(s.kids[i]) && Tree(s.kids[i]))
      && (forall i, j :: 0 <= i < j < |s.kids| ==> Footprint(s.kids[i]) !! Footprint(s.kids[j]))
  }

  /** The heap holds what the picture shows. */
  ghost predicate Holds(s: Shape)
    reads Footprint(s)
  {
    s.SNode? ==>
      && |s.node.values| == |s.kids| && (s.node.isDict ==> |s.node.keys| == |s.kids|)
      && forall i :: 0 <= i < |s.kids| ==> s.node.values[i] == Slot(s.kids[i]) && Holds(s.kids[i])
  }

  /** Whether the i-th slot counts as text: by its own key in a dictionary, by the inherited flag in a list. */
  predicate Flag(node: Container, i: nat, textKeys: set<string>, under: bool) {
    if node.isDict then i < |node.keys| && node.keys[i] in textKeys else under
  }

  /** The pure map: strings under text keys repaired, everything else, every key and every object kept. */
  function Repaired(s: Shape, textKeys: set<string>, under: bool): Shape
    decreases s
  {
    match s
    case STxt(t) => if under then STxt(Demojibake(t)) else s
    case SAtom(_) => s
    case SNode(node, kids) =>
      SNode(node, seq(|kids|,
        i requires 0 <= i < |kids| => Repaired(kids[i], textKeys, Flag(node, i, textKeys, under))))
  }

  lemma {:induction false} RepairKeepsFootprint(s: Shape, textKeys: set<string>, under: bool)
    ensures Footprint(Repaired(s, textKeys, under)) == Footprint(s)
    decreases s
  {
    if s.SNode? {
      var r := Repaired(s, textKeys, under);
      forall i | 0 <= i < |s.kids|
        ensures Footprint(r.kids[i]) == Footprint(s.kids[i])
      {
        RepairKeepsFootprint(s.kids[i], textKeys, Flag(s.node, i, textKeys, under));
      }
    }
  }

  lemma RepairKeepsTree(s: Shape, textKeys: set<string>, under: bool)
    requires Tree(s)
    ensures Tree(Repaired(s, textKeys, under))
    decreases s
  {
    if s.SNode? {
      var r := Repaired(s, textKeys, under);
      forall i | 0 <= i < |s.kids|
        ensures Footprint(r.kids[i]) == Footprint(s.kids[i]) && Tree(r.kids[i])
      {
        RepairKeepsFootprint(s.kids[i], textKeys, Flag(s.node, i, textKeys, under));
        RepairKeepsTree(s.kids[i], textKeys, Flag(s.node, i, textKeys, under));
      }
    }
  }

  /** Replacing one subtree by one with the same containers. */
  lemma ReplaceKid(s: Shape, n: nat, kid: Shape)
    requires s.SNode? && n < |s.kids| && Tree(s) && Tree(kid) && Footprint(kid) == Footprint(s.kids[n])
    ensures var s' := SNode(s.node, s.kids[n := kid]); Tree(s') && Footprint(s') == Footprint(s)
  {
    var s' := SNode(s.node, s.kids[n := kid]);
    assert forall i :: 0 <= i < |s.kids| ==> Footprint(s'.kids[i]) == Footprint(s.kids[i]);
  }

  lemma SlotShape(s: Shape, n: nat, textKeys: set<string>, flag: bool)
    requires s.SNode? && n < |s.kids| && Tree(s)
    ensures var s' := SNode(s.node, s.kids[n := Repaired(s.kids[n], textKeys, flag)]);
            Tree(s') && Footprint(s') == Footprint(s)
  {
    RepairKeepsFootprint(s.kids[n], textKeys, flag);
    RepairKeepsTree(s.kids[n], textKeys, flag);
    ReplaceKid(s, n, Repaired(s.kids[n], textKeys, flag));
  }

  lemma NextKids(done: seq<Shape>, todo: seq<Shape>, n: nat)
    requires n < |done| == |todo|
    ensures (done[..n] + todo[n..])[n := done[n]] == done[..n + 1] + todo[n + 1..]
    ensures (done[..n] + todo[n..])[n] == todo[n]
  {
  }

  lemma KidInside(s: Shape, i: nat)
    requires s.SNode? && i < |s.kids|
    ensures Footprint(s.kids[i]) <= Footprint(s)
  {
    forall x | x in Footprint(s.kids[i])
      ensures x in Footprint(s)
    {
    }
  }

  lemma Apart(s: Shape, n: nat, i: nat)
    requires s.SNode? && Tree(s) && n < |s.kids| && i < |s.kids| && i != n
    ensures Footprint(s.kids[i]) !! {s.node} + Footprint(s.kids[n])
  {
    assert i < n ==> Footprint(s.kids[i]) !! Footprint(s.kids[n]);
    assert n < i ==> Footprint(s.kids[n]) !! Footprint(s.kids[i]);
  }

  /** A string slot: only the container itself changes. */
  method RepairText(node: Container, ghost s: Shape, n: nat, t: Text)
    requires s.SNode? && s.node == node && Tree(s) && Holds(s) && n < |s.kids| && s.kids[n] == STxt(t)
    modifies node
    ensures Holds(SNode(node, s.kids[n := STxt(Demojibake(t))]))
  {
    node.values := node.values[n := Txt(Demojibake(t))];
    ghost var s' := SNode(node, s.kids[n := STxt(Demojibake(t))]);
    forall i | 0 <= i < |s'.kids|
      ensures node.values[i] == Slot(s'.kids[i]) && Holds(s'.kids[i])
    {
      if i != n {
        assert old(Holds(s.kids[i]));
        Apart(s, n, i);
      }
    }
  }

  /** A nested container: only what lies below it changes. */
  method RepairChild(child: Container, ghost s: Shape, n: nat, textKeys: set<string>, under: bool)
    requires s.SNode? && Tree(s) && Holds(s) && n < |s.kids| && s.kids[n].SNode? && s.kids[n].node == child
    modifies Footprint(s.kids[n])
    ensures Holds(SNode(s.node, s.kids[n := Repaired(s.kids[n], textKeys, under)]))
    decreases s.kids[n], 1
  {
    assert allocated(Footprint(s));
    Walk(child, s.kids[n], textKeys, under);
    ghost var s' := SNode(s.node, s.kids[n := Repaired(s.kids[n], textKeys, under)]);
    assert s.node !in Footprint(s.kids[n]);
    forall i | 0 <= i < |s'.kids|
      ensures s.node.values[i] == Slot(s'.kids[i]) && Holds(s'.kids[i])
    {
      assert old(s.node.values[i] == Slot(s.kids[i]));
      if i != n {
        assert old(Holds(s.kids[i]));
        Apart(s, n, i);
        KidInside(s, i);
      }
    }
  }

  /** One slot of a container, wherever the rest of the container stands. */
  method RepairSlot(node: Container, ghost s: Shape, n: nat, textKeys: set<string>, under: bool)
    requires s.SNode? && s.node == node && Tree(s) && Holds(s) && n < |s.kids|
    modifies {node} + Footprint(s.kids[n])
    ensures Holds(SNode(node, s.kids[n := Repaired(s.kids[n], textKeys, Flag(node, n, textKeys, under))]))
    decreases s.kids[n], 2
  {
    var flag := Flag(node, n, textKeys, under);
    assert node.values[n] == Slot(s.kids[n]);
    match node.values[n] {
      case Txt(t) =>
        if flag {
          RepairText(node, s, n, t);
        } else {
          assert s.kids[n := s.kids[n]] == s.kids;
        }
      case Atom(_) =>
        assert s.kids[n := s.kids[n]] == s.kids;
      case Ref(child) =>
        RepairChild(child, s, n, textKeys, flag);
    }
  }

  /** The walk leaves the tree as the pure map of what it was. */
  method Walk(node: Container, ghost s: Shape, textKeys: set<string>, under: bool)
    requires s.SNode? && s.node == node && Tree(s) && Holds(s)
    modifies Footprint(s)
    ensures Holds(Repaired(s, textKeys, under))
    decreases s, 0
  {
    ghost var r := Repaired(s, textKeys, under);
    ghost var now := s;
    var n := 0;
    while n < |node.values|
      invariant 0 <= n <= |s.kids| && now == SNode(node, r.kids[..n] + s.kids[n..])
      invariant Tree(now) && Footprint(now) == Footprint(s) && Holds(now)
    {
      assert now.kids[n] == s.kids[n];
      KidInside(now, n);
      SlotShape(now, n, textKeys, Flag(node, n, textKeys, under));
      RepairSlot(node, now, n, textKeys, under);
      NextKids(r.kids, s.kids, n);
      now := SNode(node, now.kids[n := r.kids[n]]);
      n := n + 1;
    }
    assert now.kids == r.kids;
  }
}
