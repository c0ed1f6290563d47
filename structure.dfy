/**
  The bridge root and the build-to-runtime swap that starts a test session
  (`simulation-controller.js`, lines 54-99): for each child in the snapshot
  taken at start, a live child tagged with a `buildIndex` that has a runtime
  template is replaced by a clone of that template at the same world pose,
  carrying a copy of its `userData`; every other child is left alone.

  The swap is specified here by `Swapped`, the children it leaves behind;
  the lemmas below state what that sequence is.
 */
module Structure {
  import opened Scene

  predicate DistinctIds(s: seq<Piece>) {
    forall i, j :: 0 <= i < j < |s| ==> s[i].id != s[j].id
  }

  predicate IdsBelow(s: seq<Piece>, bound: nat) {
    forall i :: 0 <= i < |s| ==> s[i].id < bound
  }

  /** `s` after `destroy()` of the object with identity `id`. */
  function RemoveId(s: seq<Piece>, id: nat): (r: seq<Piece>)
    ensures |r| <= |s|
    ensures forall k :: 0 <= k < |r| ==> r[k].id != id
  {
    if s == [] then []
    else (if s[0].id == id then [] else [s[0]]) + RemoveId(s[1..], id)
  }

  /**
    The bridge root: its ordered direct children, and the identity the engine
    gives the next object it creates.
   */
  class BridgeRoot {
    var children: seq<Piece>
    var nextId: nat

    ghost predicate Valid()
      reads this
    {
      DistinctIds(children) && IdsBelow(children, nextId)
    }

    constructor (children: seq<Piece>, nextId: nat)
      requires DistinctIds(children) && IdsBelow(children, nextId)
      ensures Valid() && this.children == children && this.nextId == nextId
    {
      this.children := children;
      this.nextId := nextId;
    }

    /**
      `template.clone(bridgeRoot)`, then `setTranslationWorld`,
      `setRotationWorld`, `active = true` and `userData = { ...ud }` on the
      clone: a new last child.
     */
    method CloneUnder(template: TemplateId, pose: Pose, userData: UserData) returns (p: Piece)
      modifies this
      ensures p == Piece(old(nextId), Runtime(template), userData, false, pose)
      ensures children == old(children) + [p]
      ensures nextId == old(nextId) + 1
    {
      p := Piece(nextId, Runtime(template), userData, false, pose);
      children := children + [p];
      nextId := nextId + 1;
    }

    /** `child.destroy()`: the object leaves the hierarchy. */
    method Destroy(id: nat)
      modifies this
      ensures children == RemoveId(old(children), id)
      ensures nextId == old(nextId)
    {
      children := RemoveId(children, id);
    }
  }

  /** A snapshot child the swap replaces: not destroyed, tagged, and registered. */
  predicate Replaceable(p: Piece, spawner: Spawner) {
    && !p.destroyed
    && p.userData.buildIndex.Some?
    && spawner.GetRuntimeTemplate(p.userData.buildIndex.value).Some?
  }

  /** The runtime counterpart the swap creates for `p` with identity `id`. */
  function Counterpart(p: Piece, spawner: Spawner, id: nat): (c: Piece)
    requires Replaceable(p, spawner)
    ensures c.id == id && !c.destroyed
    ensures c.pose == p.pose && c.userData == p.userData
    ensures c.kind == Runtime(spawner.runtimeTemplates[p.userData.buildIndex.value])
  {
    Piece(id, Runtime(spawner.GetRuntimeTemplate(p.userData.buildIndex.value).value), p.userData, false, p.pose)
  }

  /** The children of `s` the swap replaces, in order. */
  function Replaced(s: seq<Piece>, spawner: Spawner): (r: seq<Piece>)
    ensures |r| <= |s|
  {
    if s == [] then []
    else Replaced(s[..|s| - 1], spawner) + (if Replaceable(s[|s| - 1], spawner) then [s[|s| - 1]] else [])
  }

  /** The children of `s` the swap leaves in place, in order. */
  function Kept(s: seq<Piece>, spawner: Spawner): (k: seq<Piece>)
    ensures |k| <= |s|
  {
    if s == [] then []
    else Kept(s[..|s| - 1], spawner) + (if Replaceable(s[|s| - 1], spawner) then [] else [s[|s| - 1]])
  }

  /** The clones the swap appends, in snapshot order, numbered from `firstId`. */
  function Clones(s: seq<Piece>, spawner: Spawner, firstId: nat): (c: seq<Piece>)
    ensures |c| <= |s|
    ensures forall j :: 0 <= j < |c| ==> c[j].id == firstId + j && c[j].kind.Runtime? && !c[j].destroyed
  {
    if s == [] then []
    else
      var earlier := Clones(s[..|s| - 1], spawner, firstId);
      earlier + (if Replaceable(s[|s| - 1], spawner)
                 then [Counterpart(s[|s| - 1], spawner, firstId + |earlier|)] else [])
  }

  /**
    The root's children after the swap over `snapshot` (the root's children
    at start), with fresh identities from `firstId` on.
   */
  function Swapped(snapshot: seq<Piece>, spawner: Spawner, firstId: nat): seq<Piece>
  {
    Kept(snapshot, spawner) + Clones(snapshot, spawner, firstId)
  }

  // ----- Properties of the swap -----

  /** The swap partitions the snapshot: every child is either kept or replaced. */
  lemma {:induction false} SnapshotPartition(s: seq<Piece>, spawner: Spawner)
    ensures multiset(Kept(s, spawner)) + multiset(Replaced(s, spawner)) == multiset(s)
    ensures |Kept(s, spawner)| + |Replaced(s, spawner)| == |s|
    ensures forall p :: p in Kept(s, spawner) <==> p in s && !Replaceable(p, spawner)
    ensures forall p :: p in Replaced(s, spawner) <==> p in s && Replaceable(p, spawner)
  {
    if s != [] {
      var init, last := s[..|s| - 1], s[|s| - 1];
      SnapshotPartition(init, spawner);
      assert s == init + [last];
      var k, r := Kept(init, spawner), Replaced(init, spawner);
      if Replaceable(last, spawner) {
        assert Kept(s, spawner) == k && Replaced(s, spawner) == r + [last];
      } else {
        assert Kept(s, spawner) == k + [last] && Replaced(s, spawner) == r;
      }
      assert multiset(s) == multiset(init) + multiset{last};
      assert forall p :: p in s <==> p in init || p == last;
    }
  }

  /** Each replaced child yields exactly one clone, numbered in snapshot order. */
  lemma {:induction false} ClonesTraceBack(s: seq<Piece>, spawner: Spawner, firstId: nat)
    ensures |Clones(s, spawner, firstId)| == |Replaced(s, spawner)|
    ensures forall j :: 0 <= j < |Replaced(s, spawner)| ==>
              Replaceable(Replaced(s, spawner)[j], spawner) &&
              Clones(s, spawner, firstId)[j] == Counterpart(Replaced(s, spawner)[j], spawner, firstId + j)
  {
    if s != [] {
      ClonesTraceBack(s[..|s| - 1], spawner, firstId);
    }
  }

  /**
    The swap keeps the root's child count: every replaced original is
    destroyed and every replacement adds one clone, so the count of
    replacements is at most the snapshot's size.
   */
  lemma SwapKeepsCount(snapshot: seq<Piece>, spawner: Spawner, firstId: nat)
    ensures |Swapped(snapshot, spawner, firstId)| == |snapshot|
    ensures |Clones(snapshot, spawner, firstId)| <= |snapshot|
  {
    SnapshotPartition(snapshot, spawner);
    ClonesTraceBack(snapshot, spawner, firstId);
  }

  /**
    Every child after the swap traces back to exactly one child of the
    snapshot: a kept child is that child unchanged; the `j`-th clone is the
    counterpart of the `j`-th replaced child, at its world pose, with a copy of
    its user data, and with a fresh identity that no snapshot child has (so a
    clone is never processed by the same swap).
   */
  lemma SwapTracesBack(snapshot: seq<Piece>, spawner: Spawner, firstId: nat)
    requires IdsBelow(snapshot, firstId)
    ensures |Clones(snapshot, spawner, firstId)| == |Replaced(snapshot, spawner)|
    ensures forall p :: p in Kept(snapshot, spawner) ==> p in snapshot && !Replaceable(p, spawner)
    ensures forall j :: 0 <= j < |Clones(snapshot, spawner, firstId)| ==>
              var c, o := Clones(snapshot, spawner, firstId)[j], Replaced(snapshot, spawner)[j];
              o in snapshot && Replaceable(o, spawner) && c.id == firstId + j &&
              c.pose == o.pose && c.userData == o.userData && !c.destroyed &&
              c.kind == Runtime(spawner.runtimeTemplates[o.userData.buildIndex.value]) &&
              forall k :: 0 <= k < |snapshot| ==> snapshot[k].id != c.id
  {
    SnapshotPartition(snapshot, spawner);
    ClonesTraceBack(snapshot, spawner, firstId);
  }

  /** Every child of the snapshot the swap does not replace is still there, as it was. */
  lemma SwapLeavesOthersUntouched(snapshot: seq<Piece>, spawner: Spawner, firstId: nat, k: nat)
    requires k < |snapshot| && !Replaceable(snapshot[k], spawner)
    ensures snapshot[k] in Swapped(snapshot, spawner, firstId)
  {
    SnapshotPartition(snapshot, spawner);
  }

  /** The swap keeps identities distinct and below the root's next fresh identity. */
  lemma SwapKeepsRootValid(snapshot: seq<Piece>, spawner: Spawner, firstId: nat)
    requires DistinctIds(snapshot) && IdsBelow(snapshot, firstId)
    ensures DistinctIds(Swapped(snapshot, spawner, firstId))
    ensures IdsBelow(Swapped(snapshot, spawner, firstId), firstId + |Clones(snapshot, spawner, firstId)|)
  {
    var k, c := Kept(snapshot, spawner), Clones(snapshot, spawner, firstId);
    KeptDistinct(snapshot, spawner);
    SnapshotPartition(snapshot, spawner);
    ClonesTraceBack(snapshot, spawner, firstId);
    forall i | 0 <= i < |k| ensures k[i].id < firstId {
      assert k[i] in snapshot;
    }
    var w := k + c;
    forall i, j | 0 <= i < j < |w| ensures w[i].id != w[j].id {
      if j < |k| {
      } else if i < |k| {
        assert w[i] == k[i] && w[j] == c[j - |k|];
      } else {
        assert w[i] == c[i - |k|] && w[j] == c[j - |k|];
      }
    }
  }

  lemma {:induction false} KeptDistinct(s: seq<Piece>, spawner: Spawner)
    requires DistinctIds(s)
    ensures DistinctIds(Kept(s, spawner))
  {
    if s != [] {
      var init, last := s[..|s| - 1], s[|s| - 1];
      assert DistinctIds(init) by {
        forall i, j | 0 <= i < j < |init| ensures init[i].id != init[j].id {
          assert init[i] == s[i] && init[j] == s[j];
        }
      }
      KeptDistinct(init, spawner);
      if !Replaceable(last, spawner) {
        var k := Kept(init, spawner);
        KeptInSnapshot(init, spawner);
        forall i | 0 <= i < |k| ensures k[i].id != last.id {
          assert k[i] in init;
          var m :| 0 <= m < |init| && init[m] == k[i];
          assert s[m] == k[i];
        }
        var w := k + [last];
        assert Kept(s, spawner) == w;
        forall i, j | 0 <= i < j < |w| ensures w[i].id != w[j].id {
          if j < |k| {
            assert w[i] == k[i] && w[j] == k[j];
          } else {
            assert w[i] == k[i] && w[j] == last;
          }
        }
      }
    }
  }

  lemma {:induction false} KeptInSnapshot(s: seq<Piece>, spawner: Spawner)
    ensures forall x :: x in Kept(s, spawner) ==> x in s
  {
    if s != [] {
      var init := s[..|s| - 1];
      KeptInSnapshot(init, spawner);
      assert forall x :: x in init ==> x in s;
    }
  }

  /**
    The replacement loop of `startSimulation` over the snapshot `childrenAtStart`
    of the root's children: a child that is destroyed, has no `buildIndex`, or
    has no runtime template is skipped; any other is cloned from its runtime
    template at its world pose with a copy of its user data, and then destroyed.
   */
  method SwapToRuntime(root: BridgeRoot, spawner: Spawner) returns (replacedCount: nat)
    requires root.Valid()
    modifies root
    ensures root.Valid()
    ensures root.children == Swapped(old(root.children), spawner, old(root.nextId))
    ensures replacedCount == |Clones(old(root.children), spawner, old(root.nextId))|
    ensures root.nextId == old(root.nextId) + replacedCount
  {
    var childrenAtStart := root.children;
    ghost var firstId := root.nextId;
    replacedCount := 0;
    SwapProgressStart(childrenAtStart, spawner, firstId);
    for i := 0 to |childrenAtStart|
      invariant root.children == SwapProgress(childrenAtStart, i, spawner, firstId)
      invariant replacedCount == |Clones(childrenAtStart[..i], spawner, firstId)|
      invariant root.nextId == firstId + replacedCount
    {
      var child := childrenAtStart[i];
      if child.destroyed || child.userData.buildIndex.None? {
        SkipStep(childrenAtStart, i, spawner, firstId);
        continue;
      }
      var ud := child.userData;
      var runtimeTemplate := spawner.GetRuntimeTemplate(ud.buildIndex.value);
      if runtimeTemplate.None? {
        SkipStep(childrenAtStart, i, spawner, firstId);
        continue;
      }
      ReplaceStep(childrenAtStart, i, spawner, firstId);
      var runtimeInstance := root.CloneUnder(runtimeTemplate.value, child.pose, ud);
      root.Destroy(child.id);
      replacedCount := replacedCount + 1;
    }
    assert childrenAtStart[..|childrenAtStart|] == childrenAtStart;
    SwapProgressEnd(childrenAtStart, spawner, firstId);
    SwapKeepsRootValid(childrenAtStart, spawner, firstId);
  }

  // ----- The loop steps of the swap, as the controller performs it -----

  lemma {:induction false} RemoveIdAppend(a: seq<Piece>, b: seq<Piece>, id: nat)
    ensures RemoveId(a + b, id) == RemoveId(a, id) + RemoveId(b, id)
  {
    if a == [] {
      assert a + b == b;
    } else {
      var h := if a[0].id == id then [] else [a[0]];
      assert (a + b)[0] == a[0];
      assert (a + b)[1..] == a[1..] + b;
      RemoveIdAppend(a[1..], b, id);
      assert RemoveId(a + b, id) == h + RemoveId(a[1..] + b, id);
      assert RemoveId(a, id) == h + RemoveId(a[1..], id);
    }
  }

  predicate NoId(s: seq<Piece>, id: nat) {
    forall k :: 0 <= k < |s| ==> s[k].id != id
  }

  lemma {:induction false} RemoveIdAbsent(s: seq<Piece>, id: nat)
    requires NoId(s, id)
    ensures RemoveId(s, id) == s
  {
    if s != [] {
      RemoveIdAbsent(s[1..], id);
    }
  }

  /** `destroy()` of one id keeps exactly the pieces with another id. */
  lemma {:induction false} RemoveIdKeepsOthers(s: seq<Piece>, id: nat, p: Piece)
    ensures p in RemoveId(s, id) <==> p in s && p.id != id
  {
    if s != [] {
      RemoveIdKeepsOthers(s[1..], id, p);
      assert s == [s[0]] + s[1..];
    }
  }

  /** The root's children after the loop has processed the first `i` snapshot entries. */
  function SwapProgress(snapshot: seq<Piece>, i: nat, spawner: Spawner, firstId: nat): seq<Piece>
    requires i <= |snapshot|
  {
    Kept(snapshot[..i], spawner) + snapshot[i..] + Clones(snapshot[..i], spawner, firstId)
  }

  lemma SwapProgressStart(snapshot: seq<Piece>, spawner: Spawner, firstId: nat)
    ensures SwapProgress(snapshot, 0, spawner, firstId) == snapshot
  {
    assert snapshot[..0] == [];
  }

  lemma SwapProgressEnd(snapshot: seq<Piece>, spawner: Spawner, firstId: nat)
    ensures SwapProgress(snapshot, |snapshot|, spawner, firstId) == Swapped(snapshot, spawner, firstId)
  {
    assert snapshot[..|snapshot|] == snapshot;
  }

  /** Skipping entry `i` (destroyed, untagged or unregistered) leaves the children as they are. */
  lemma SkipStep(snapshot: seq<Piece>, i: nat, spawner: Spawner, firstId: nat)
    requires i < |snapshot| && !Replaceable(snapshot[i], spawner)
    ensures SwapProgress(snapshot, i + 1, spawner, firstId) == SwapProgress(snapshot, i, spawner, firstId)
    ensures Clones(snapshot[..i + 1], spawner, firstId) == Clones(snapshot[..i], spawner, firstId)
  {
    assert snapshot[..i + 1][..i] == snapshot[..i];
    assert snapshot[i..] == [snapshot[i]] + snapshot[i + 1..];
  }

  /** Destroying `x` out of `k + [x] + rest + c + tail` removes just `x` when no other piece shares its identity. */
  lemma RemoveOne(k: seq<Piece>, x: Piece, rest: seq<Piece>, c: seq<Piece>, tail: seq<Piece>)
    requires NoId(k, x.id) && NoId(rest, x.id) && NoId(c, x.id) && NoId(tail, x.id)
    ensures RemoveId(k + [x] + rest + c + tail, x.id) == k + rest + c + tail
  {
    var id := x.id;
    assert [x][1..] == [];
    assert RemoveId([x], id) == [];
    RemoveIdAbsent(k, id);
    RemoveIdAbsent(rest, id);
    RemoveIdAbsent(c, id);
    RemoveIdAbsent(tail, id);
    RemoveIdAppend(k, [x], id);
    assert RemoveId(k + [x], id) == k;
    RemoveIdAppend(k + [x], rest, id);
    assert RemoveId(k + [x] + rest, id) == k + rest;
    RemoveIdAppend(k + [x] + rest, c, id);
    assert RemoveId(k + [x] + rest + c, id) == k + rest + c;
    RemoveIdAppend(k + [x] + rest + c, tail, id);
  }

  /** Replacing entry `i`: clone appended, original destroyed. */
  lemma ReplaceStep(snapshot: seq<Piece>, i: nat, spawner: Spawner, firstId: nat)
    requires DistinctIds(snapshot) && IdsBelow(snapshot, firstId)
    requires i < |snapshot| && Replaceable(snapshot[i], spawner)
    ensures var n := |Clones(snapshot[..i], spawner, firstId)|;
            var clone := Counterpart(snapshot[i], spawner, firstId + n);
            && RemoveId(SwapProgress(snapshot, i, spawner, firstId) + [clone], snapshot[i].id)
               == SwapProgress(snapshot, i + 1, spawner, firstId)
            && |Clones(snapshot[..i + 1], spawner, firstId)| == n + 1
  {
    var pre := snapshot[..i];
    var x := snapshot[i];
    var k, c := Kept(pre, spawner), Clones(pre, spawner, firstId);
    var clone := Counterpart(x, spawner, firstId + |c|);
    var rest := snapshot[i + 1..];
    assert snapshot[..i + 1][..i] == pre;
    assert snapshot[i..] == [x] + rest;
    KeptAvoids(snapshot, i, spawner);
    assert NoId(rest, x.id) by {
      forall j | 0 <= j < |rest| ensures rest[j].id != x.id {
        assert rest[j] == snapshot[i + 1 + j];
      }
    }
    ClonesTraceBack(pre, spawner, firstId);
    assert NoId(c, x.id) by {
      forall j | 0 <= j < |c| ensures c[j].id != x.id {
        assert c[j].id == firstId + j;
      }
    }
    RemoveOne(k, x, rest, c, [clone]);
    assert SwapProgress(snapshot, i, spawner, firstId) + [clone] == k + [x] + rest + c + [clone];
  }

  /** No child kept from the first `i` entries shares entry `i`'s identity. */
  lemma KeptAvoids(snapshot: seq<Piece>, i: nat, spawner: Spawner)
    requires DistinctIds(snapshot) && i < |snapshot|
    ensures NoId(Kept(snapshot[..i], spawner), snapshot[i].id)
  {
    var pre := snapshot[..i];
    var k := Kept(pre, spawner);
    SnapshotPartition(pre, spawner);
    forall j | 0 <= j < |k| ensures k[j].id != snapshot[i].id {
      assert k[j] in pre;
      var m :| 0 <= m < |pre| && pre[m] == k[j];
      assert snapshot[m] == k[j];
    }
  }
}
