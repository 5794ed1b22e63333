/** Which strings the walk repairs, said by the path that leads to each of them. */
module MojibakePaths {
  import opened Mojibake
  import opened MojibakeWalk

  /** The path of slot numbers stays inside the tree. */
  predicate Leads(s: Shape, path: seq<nat>) {
    path == [] || (s.SNode? && path[0] < |s.kids| && Leads(s.kids[path[0]], path[1..]))
  }

  /** What the path leads to. */
  function At(s: Shape, path: seq<nat>): Shape
    requires Leads(s, path)
  {
    if path == [] then s else At(s.kids[path[0]], path[1..])
  }

  /** Every dictionary has one key per slot. */
  predicate Keyed(s: Shape) {
    s.SNode? ==>
      && (s.node.isDict ==> |s.node.keys| == |s.kids|)
      && forall i :: 0 <= i < |s.kids| ==> Keyed(s.kids[i])
  }

  lemma {:induction false} HeldIsKeyed(s: Shape)
    requires Holds(s)
    ensures Keyed(s)
  {
    if s.SNode? {
      forall i | 0 <= i < |s.kids|
        ensures Keyed(s.kids[i])
      {
        HeldIsKeyed(s.kids[i]);
      }
    }
  }

  lemma {:induction false} LeadsPart(s: Shape, path: seq<nat>, i: nat)
    requires Leads(s, path) && i <= |path|
    ensures Leads(s, path[..i])
    decreases path
  {
    if i > 0 {
      LeadsPart(s.kids[path[0]], path[1..], i - 1);
      assert path[..i][1..] == path[1..][..i - 1];
    }
  }

  /** The i-th turn of the path is taken in a dictionary, at one of the given keys or at another. */
  ghost predicate TurnsAtKey(s: Shape, path: seq<nat>, i: nat)
    requires Leads(s, path)
  {
    i < |path| && (LeadsPart(s, path, i); At(s, path[..i]).SNode? && At(s, path[..i]).node.isDict)
  }

  ghost predicate TextKey(s: Shape, path: seq<nat>, i: nat, textKeys: set<string>)
    requires Leads(s, path) && i < |path|
  {
    LeadsPart(s, path, i);
    var d := At(s, path[..i]);
    d.SNode? && path[i] < |d.node.keys| && d.node.keys[path[i]] in textKeys
  }

  /**
    A slot counts as text when the last dictionary on the way to it was left at a text key; with no
    dictionary on the way, when the walk was started under a text key.
   */
  ghost predicate UnderText(s: Shape, path: seq<nat>, textKeys: set<string>, under: bool)
    requires Leads(s, path)
  {
    || (exists i: nat :: LastDictionary(s, path, i) && TextKey(s, path, i, textKeys))
    || (under && forall i: nat :: !TurnsAtKey(s, path, i))
  }

  ghost predicate LastDictionary(s: Shape, path: seq<nat>, i: nat)
    requires Leads(s, path)
  {
    TurnsAtKey(s, path, i) && forall j: nat :: i < j ==> !TurnsAtKey(s, path, j)
  }

  // ----- one turn at a time -----

  lemma TurnsBelow(s: Shape, path: seq<nat>, i: nat)
    requires path != [] && Leads(s, path)
    ensures TurnsAtKey(s, path, i + 1) <==> TurnsAtKey(s.kids[path[0]], path[1..], i)
    ensures i + 1 < |path| ==>
      forall textKeys :: TextKey(s, path, i + 1, textKeys) <==> TextKey(s.kids[path[0]], path[1..], i, textKeys)
  {
    if i + 1 < |path| {
      LeadsPart(s, path, i + 1);
      LeadsPart(s.kids[path[0]], path[1..], i);
      assert path[..i + 1][1..] == path[1..][..i];
    }
  }

  lemma LastBelow(s: Shape, path: seq<nat>, i: nat)
    requires path != [] && Leads(s, path)
    ensures LastDictionary(s, path, i + 1) <==> LastDictionary(s.kids[path[0]], path[1..], i)
  {
    var kid, rest := s.kids[path[0]], path[1..];
    TurnsBelow(s, path, i);
    if LastDictionary(s, path, i + 1) {
      forall j: nat | i < j
        ensures !TurnsAtKey(kid, rest, j)
      {
        TurnsBelow(s, path, j);
      }
    }
    if LastDictionary(kid, rest, i) {
      forall j: nat | i + 1 < j
        ensures !TurnsAtKey(s, path, j)
      {
        assert !TurnsAtKey(kid, rest, j - 1);
        TurnsBelow(s, path, j - 1);
      }
    }
  }

  lemma FirstTurn(s: Shape, path: seq<nat>)
    requires path != [] && Leads(s, path)
    ensures TurnsAtKey(s, path, 0) <==> s.node.isDict
    ensures forall textKeys :: TextKey(s, path, 0, textKeys) <==>
      path[0] < |s.node.keys| && s.node.keys[path[0]] in textKeys
  {
    assert path[..0] == [];
  }

  /** What a turn hands down: in a dictionary the verdict on its key, in a list what was handed down before. */
  lemma UnderTextStep(s: Shape, path: seq<nat>, textKeys: set<string>, under: bool, below: bool)
    requires path != [] && Leads(s, path) && Keyed(s)
    requires below <==> if s.node.isDict then s.node.keys[path[0]] in textKeys else under
    ensures UnderText(s, path, textKeys, under) <==> UnderText(s.kids[path[0]], path[1..], textKeys, below)
  {
    var kid, rest := s.kids[path[0]], path[1..];
    if UnderText(s, path, textKeys, under) {
      UnderTextDown(s, path, textKeys, under, below);
    }
    if UnderText(kid, rest, textKeys, below) {
      UnderTextUp(s, path, textKeys, under, below);
    }
  }

  lemma UnderTextDown(s: Shape, path: seq<nat>, textKeys: set<string>, under: bool, below: bool)
    requires path != [] && Leads(s, path) && Keyed(s) && UnderText(s, path, textKeys, under)
    requires below <==> if s.node.isDict then s.node.keys[path[0]] in textKeys else under
    ensures UnderText(s.kids[path[0]], path[1..], textKeys, below)
  {
    var kid, rest := s.kids[path[0]], path[1..];
    FirstTurn(s, path);
    if i: nat :| LastDictionary(s, path, i) && TextKey(s, path, i, textKeys) {
      if i > 0 {
        LastBelow(s, path, i - 1);
        TurnsBelow(s, path, i - 1);
        assert LastDictionary(kid, rest, i - 1) && TextKey(kid, rest, i - 1, textKeys);
      } else {
        NoneBelow(s, path);
      }
    } else {
      NoneBelow(s, path);
    }
  }

  /** Without a dictionary after the first turn there is none below it. */
  lemma NoneBelow(s: Shape, path: seq<nat>)
    requires path != [] && Leads(s, path) && forall j: nat :: 0 < j ==> !TurnsAtKey(s, path, j)
    ensures forall j: nat :: !TurnsAtKey(s.kids[path[0]], path[1..], j)
  {
    forall j: nat
      ensures !TurnsAtKey(s.kids[path[0]], path[1..], j)
    {
      TurnsBelow(s, path, j);
    }
  }

  lemma UnderTextUp(s: Shape, path: seq<nat>, textKeys: set<string>, under: bool, below: bool)
    requires path != [] && Leads(s, path) && Keyed(s) && UnderText(s.kids[path[0]], path[1..], textKeys, below)
    requires below <==> if s.node.isDict then s.node.keys[path[0]] in textKeys else under
    ensures UnderText(s, path, textKeys, under)
  {
    var kid, rest := s.kids[path[0]], path[1..];
    FirstTurn(s, path);
    if i: nat :| LastDictionary(kid, rest, i) && TextKey(kid, rest, i, textKeys) {
      LastBelow(s, path, i);
      TurnsBelow(s, path, i);
      assert LastDictionary(s, path, i + 1) && TextKey(s, path, i + 1, textKeys);
    } else {
      forall j: nat | 0 < j
        ensures !TurnsAtKey(s, path, j)
      {
        TurnsBelow(s, path, j - 1);
      }
      if s.node.isDict {
        assert LastDictionary(s, path, 0) && TextKey(s, path, 0, textKeys);
      } else {
        assert forall j: nat :: !TurnsAtKey(s, path, j);
      }
    }
  }

  // ----- every leaf -----

  /** What becomes of what a path leads to: texts under a text key are repaired, the rest is as it was. */
  predicate Became(was: Shape, now: Shape, underText: bool) {
    match was
    case STxt(t) => now == STxt(if underText then Demojibake(t) else t)
    case SAtom(n) => now == SAtom(n)
    case SNode(node, kids) => now.SNode? && now.node == node && |now.kids| == |kids|
  }

  /**
    The walk keeps every path, every container and every atom, and repairs a string if and only if the
    path to it leaves its last dictionary at a text key, or meets none and the walk was started under one.
   */
  lemma {:induction false} WalkByPaths(s: Shape, path: seq<nat>, textKeys: set<string>, under: bool)
    requires Keyed(s) && Leads(s, path)
    ensures Leads(Repaired(s, textKeys, under), path)
    ensures Became(At(s, path), At(Repaired(s, textKeys, under), path), UnderText(s, path, textKeys, under))
    decreases path
  {
    if path == [] {
      assert forall i: nat :: !TurnsAtKey(s, path, i);
    } else {
      var below := Flag(s.node, path[0], textKeys, under);
      WalkByPaths(s.kids[path[0]], path[1..], textKeys, below);
      UnderTextStep(s, path, textKeys, under, below);
    }
  }

  /** And the result has no paths of its own. */
  lemma {:induction false} NoNewPaths(s: Shape, path: seq<nat>, textKeys: set<string>, under: bool)
    requires Leads(Repaired(s, textKeys, under), path)
    ensures Leads(s, path)
    decreases path
  {
    if path != [] {
      NoNewPaths(s.kids[path[0]], path[1..], textKeys, Flag(s.node, path[0], textKeys, under));
    }
  }
}
