/**
 * The cascade `DiagramModelObjectProxy.delete` runs, as a sequence of
 * commands: deleting the incoming connections of the object, then its
 * outgoing connections, then each child object in turn (each with its own
 * cascade), then the object itself when it still has a container.
 *
 * `Cascade` is that sequence, computed on the successive states the Java
 * loops see; `CascadeSpec` states what running it does to the graph.
 */
module DiagramDelete {
  import opened Wrappers
  import opened Graph
  import opened Commands

  /** A delete command for each connection of `rs`, in order. */
  function ConnectionDeletes(rs: seq<NodeId>): seq<Command> {
    seq(|rs|, i requires 0 <= i < |rs| => DeleteConnection(rs[i]))
  }

  lemma ConnectionDeletesSnoc(rs: seq<NodeId>, i: nat)
    requires i < |rs|
    ensures ConnectionDeletes(rs[..i + 1]) == ConnectionDeletes(rs[..i]) + [DeleteConnection(rs[i])]
  {
  }

  /** Every connection of `rs` taken out of the connection lists of every node. */
  function UnlinkAll(nodes: Nodes, rs: seq<NodeId>): (out: Nodes)
    ensures out.Keys == nodes.Keys
  {
    map x | x in nodes ::
      nodes[x].(links := nodes[x].links.(inRels := WithoutAll(nodes[x].links.inRels, rs),
                                         outRels := WithoutAll(nodes[x].links.outRels, rs)))
  }

  lemma UnlinkAllNil(nodes: Nodes)
    ensures UnlinkAll(nodes, []) == nodes
  {
    forall x | x in nodes ensures UnlinkAll(nodes, [])[x] == nodes[x] {
      WithoutAllNil(nodes[x].links.inRels);
      WithoutAllNil(nodes[x].links.outRels);
    }
  }

  lemma UnlinkAllSnoc(nodes: Nodes, rs: seq<NodeId>, r: NodeId)
    ensures Unlink(UnlinkAll(nodes, rs), r) == UnlinkAll(nodes, rs + [r])
  {
    var u := UnlinkAll(nodes, rs);
    forall x | x in nodes ensures Unlink(u, r)[x] == UnlinkAll(nodes, rs + [r])[x] {
      WithoutAllSnoc(nodes[x].links.inRels, rs, r);
      WithoutAllSnoc(nodes[x].links.outRels, rs, r);
    }
  }

  /** Deleting the connections of `rs` one by one unlinks all of them. */
  lemma {:induction false} ConnectionDeletesEffect(nodes: Nodes, rs: seq<NodeId>)
    requires forall r :: r in rs ==> r in nodes
    ensures ApplyAll(nodes, ConnectionDeletes(rs)) == UnlinkAll(nodes, rs)
    decreases |rs|
  {
    if rs == [] {
      UnlinkAllNil(nodes);
      assert ConnectionDeletes(rs) == [];
    } else {
      var i := |rs| - 1;
      var r := rs[i];
      var front := rs[..i];
      assert rs == front + [r];
      ConnectionDeletesSnoc(rs, i);
      assert rs[..i + 1] == rs;
      ConnectionDeletesEffect(nodes, front);
      ApplyAllAppend(nodes, ConnectionDeletes(front), [DeleteConnection(r)]);
      var u := UnlinkAll(nodes, front);
      ApplyAllOne(u, DeleteConnection(r));
      assert r in u;
      UnlinkAllSnoc(nodes, front, r);
    }
  }

  /** The self-delete: issued only when the object has a container. */
  function SelfDelete(nodes: Nodes, n: NodeId): seq<Command>
    requires n in nodes
  {
    if nodes[n].links.container.Some? then [DeleteObject(n)] else []
  }

  /** The diagram children of `n` are below it and contained in it. */
  lemma ChildrenBelow(nodes: Nodes, rank: map<NodeId, nat>, n: NodeId)
    requires WellFormed(nodes, rank) && n in nodes
    ensures NoDup(DiagramChildren(nodes, n))
    ensures forall k :: k in DiagramChildren(nodes, n) ==>
              k in nodes && k in rank && rank[n] < rank[k] && nodes[k].links.container == Some(n)
  {
    assert DownLinksOk(nodes, n);
    forall k | k in DiagramChildren(nodes, n)
      ensures k in nodes && k in rank && rank[n] < rank[k] && nodes[k].links.container == Some(n)
    {
      assert UpLinkOk(nodes, rank, k);
    }
  }

  /** The connection deletes `delete()` starts with: the incoming
      connections, then the outgoing connections left after those. */
  function ConnectionsPart(nodes: Nodes, n: NodeId): seq<Command>
    requires n in nodes
  {
    var c1 := ConnectionDeletes(nodes[n].links.inRels);
    ApplyAllSameKinds(nodes, c1);
    c1 + ConnectionDeletes(ApplyAll(nodes, c1)[n].links.outRels)
  }

  /** The commands `delete()` issues for the diagram object `n`. */
  ghost function Cascade(nodes: Nodes, rank: map<NodeId, nat>, n: NodeId): seq<Command>
    requires WellFormed(nodes, rank) && n in nodes
    decreases |rank| - rank[n], 1
  {
    var cs := ConnectionsPart(nodes, n);
    ApplyAllWellFormed(nodes, rank, cs);
    var s2 := ApplyAll(nodes, cs);
    ChildrenBelow(s2, rank, n);
    var c3 := CascadeChildren(s2, rank, n, DiagramChildren(s2, n));
    ApplyAllWellFormed(s2, rank, c3);
    cs + c3 + SelfDelete(ApplyAll(s2, c3), n)
  }

  /** The cascades of the children `ks` of `n`, each run on the state the
      previous ones left. */
  ghost function CascadeChildren(nodes: Nodes, rank: map<NodeId, nat>, n: NodeId, ks: seq<NodeId>): seq<Command>
    requires WellFormed(nodes, rank) && n in nodes
    requires forall k :: k in ks ==> k in nodes && rank[n] < rank[k]
    decreases |rank| - rank[n], 0, |ks|
  {
    if ks == [] then []
    else
      var pre := CascadeChildren(nodes, rank, n, ks[..|ks| - 1]);
      ApplyAllWellFormed(nodes, rank, pre);
      pre + Cascade(ApplyAll(nodes, pre), rank, ks[|ks| - 1])
  }

  lemma CascadeChildrenSnoc(nodes: Nodes, rank: map<NodeId, nat>, n: NodeId, ks: seq<NodeId>, i: nat)
    requires WellFormed(nodes, rank) && n in nodes
    requires forall k :: k in ks ==> k in nodes && rank[n] < rank[k]
    requires i < |ks|
    ensures WellFormed(ApplyAll(nodes, CascadeChildren(nodes, rank, n, ks[..i])), rank)
    ensures CascadeChildren(nodes, rank, n, ks[..i + 1]) ==
              CascadeChildren(nodes, rank, n, ks[..i])
              + Cascade(ApplyAll(nodes, CascadeChildren(nodes, rank, n, ks[..i])), rank, ks[i])
  {
    assert ks[..i + 1][..i] == ks[..i];
    ApplyAllWellFormed(nodes, rank, CascadeChildren(nodes, rank, n, ks[..i]));
  }

  // ---------------------------------------------------------------------------
  // What a cascade changes

  /** Only containment and connection lists changed, and connection lists
      only lost entries. */
  ghost predicate LinksOnly(a: Nodes, b: Nodes) {
    && SameKinds(a, b)
    && (forall x :: x in a ==> b[x].attrs == a[x].attrs)
    && (forall x :: x in a ==> forall r :: r in b[x].links.inRels ==> r in a[x].links.inRels)
    && (forall x :: x in a ==> forall r :: r in b[x].links.outRels ==> r in a[x].links.outRels)
  }

  lemma LinksOnlyTrans(a: Nodes, b: Nodes, c: Nodes)
    requires LinksOnly(a, b) && LinksOnly(b, c)
    ensures LinksOnly(a, c)
  {
  }

  /** Nodes outside the subtree of `n` (their chain avoids `n`) keep their
      container, and their contents unless they are `except`. */
  ghost predicate KeptOutside(a: Nodes, b: Nodes, rank: map<NodeId, nat>, n: NodeId, except: Option<NodeId>)
    requires WellFormed(a, rank)
  {
    && a.Keys == b.Keys
    && forall x :: x in a && n !in Chain(a, rank, Some(x)) ==>
         && b[x].links.container == a[x].links.container
         && (Some(x) != except ==> b[x].links.contents == a[x].links.contents)
  }

  /** `n` is detached, has no connections and no diagram children left. */
  ghost predicate Gone(b: Nodes, n: NodeId)
    requires n in b
  {
    && b[n].links.container == None
    && b[n].links.inRels == [] && b[n].links.outRels == []
    && DiagramChildren(b, n) == []
  }

  /** What deleting `n` from `a` leaves in `b`: nothing outside the subtree
      of `n` changed but the contents of its container, which lost `n`. */
  ghost predicate Deleted(a: Nodes, b: Nodes, rank: map<NodeId, nat>, n: NodeId)
    requires WellFormed(a, rank) && n in a
  {
    && LinksOnly(a, b)
    && KeptOutside(a, b, rank, n, a[n].links.container)
    && (a[n].links.container.Some? ==>
          var p := a[n].links.container.value;
          b[p].links.contents == Remove(a[p].links.contents, n))
    && Gone(b, n)
  }

  /** What the children cascades of `n` over `ks` leave in `m`. */
  ghost predicate ChildrenDeleted(s: Nodes, m: Nodes, rank: map<NodeId, nat>, n: NodeId, ks: seq<NodeId>)
    requires WellFormed(s, rank) && n in s
  {
    && LinksOnly(s, m)
    && KeptOutside(s, m, rank, n, None)
    && m[n].links.container == s[n].links.container
    && m[n].links.contents == WithoutAll(s[n].links.contents, ks)
    && (forall y :: y in s && s[y].links.container == Some(n) && y !in ks ==> m[y].links.container == Some(n))
  }

  lemma UnlinkAllFrame(a: Nodes, rs: seq<NodeId>)
    ensures LinksOnly(a, UnlinkAll(a, rs))
    ensures forall x :: x in a ==> UnlinkAll(a, rs)[x].links.container == a[x].links.container
                                   && UnlinkAll(a, rs)[x].links.contents == a[x].links.contents
  {
  }

  /** A children cascade one child further. */
  lemma ChildStep(s: Nodes, m: Nodes, m': Nodes, rank: map<NodeId, nat>, n: NodeId, ks: seq<NodeId>, k: NodeId)
    requires WellFormed(s, rank) && WellFormed(m, rank) && n in s
    requires ChildrenDeleted(s, m, rank, n, ks)
    requires k in s && k !in ks && s[k].links.container == Some(n)
    requires Deleted(m, m', rank, k)
    requires m[k].links.container == Some(n)
    ensures ChildrenDeleted(s, m', rank, n, ks + [k])
  {
    LinksOnlyTrans(s, m, m');
    KeptOutsideStep(s, m, m', rank, n, k);
    ParentKept(m, m', rank, n, k);
    WithoutAllSnoc(s[n].links.contents, ks, k);
    SiblingsKept(s, m, m', rank, n, ks, k);
  }

  /** The cascade of a child `k` of `n` leaves the container of `n`, and
      takes `k` out of the contents of `n`. */
  lemma ParentKept(m: Nodes, m': Nodes, rank: map<NodeId, nat>, n: NodeId, k: NodeId)
    requires WellFormed(m, rank) && n in m && k in m
    requires m[k].links.container == Some(n)
    requires Deleted(m, m', rank, k)
    ensures m'[n].links.container == m[n].links.container
    ensures m'[n].links.contents == Remove(m[n].links.contents, k)
  {
    assert UpLinkOk(m, rank, k);
    ChainRanks(m, rank, n);
    assert k !in Chain(m, rank, Some(n));
  }

  /** The cascade of a child `k` of `n` leaves the other children of `n` in it. */
  lemma SiblingsKept(s: Nodes, m: Nodes, m': Nodes, rank: map<NodeId, nat>, n: NodeId, ks: seq<NodeId>, k: NodeId)
    requires WellFormed(s, rank) && WellFormed(m, rank) && n in s && k in s
    requires s.Keys == m.Keys
    requires m[k].links.container == Some(n)
    requires forall y :: y in s && s[y].links.container == Some(n) && y !in ks ==> m[y].links.container == Some(n)
    requires KeptOutside(m, m', rank, k, Some(n))
    ensures forall y :: y in s && s[y].links.container == Some(n) && y !in ks + [k] ==> m'[y].links.container == Some(n)
  {
    forall y | y in s && s[y].links.container == Some(n) && y !in ks + [k]
      ensures m'[y].links.container == Some(n)
    {
      SiblingKept(m, m', rank, n, k, y);
    }
  }

  lemma SiblingKept(m: Nodes, m': Nodes, rank: map<NodeId, nat>, n: NodeId, k: NodeId, y: NodeId)
    requires WellFormed(m, rank) && n in m && k in m && y in m && y != k
    requires m[k].links.container == Some(n) && m[y].links.container == Some(n)
    requires KeptOutside(m, m', rank, k, Some(n))
    ensures m'[y].links.container == Some(n)
  {
    assert UpLinkOk(m, rank, k);
    ChainRanks(m, rank, n);
    assert UpLinkOk(m, rank, y);
    assert Chain(m, rank, Some(y)) == [y] + Chain(m, rank, Some(n));
    assert k !in Chain(m, rank, Some(y));
  }

  lemma KeptOutsideStep(s: Nodes, m: Nodes, m': Nodes, rank: map<NodeId, nat>, n: NodeId, k: NodeId)
    requires WellFormed(s, rank) && WellFormed(m, rank) && n in s
    requires KeptOutside(s, m, rank, n, None)
    requires k in s && s[k].links.container == Some(n)
    requires KeptOutside(m, m', rank, k, Some(n))
    ensures KeptOutside(s, m', rank, n, None)
  {
    forall x | x in s && n !in Chain(s, rank, Some(x))
      ensures m'[x].links.container == s[x].links.container
      ensures m'[x].links.contents == s[x].links.contents
    {
      KeptOutsideAt(s, m, m', rank, n, k, x);
    }
  }

  lemma KeptOutsideAt(s: Nodes, m: Nodes, m': Nodes, rank: map<NodeId, nat>, n: NodeId, k: NodeId, x: NodeId)
    requires WellFormed(s, rank) && WellFormed(m, rank) && n in s
    requires KeptOutside(s, m, rank, n, None)
    requires k in s && s[k].links.container == Some(n)
    requires KeptOutside(m, m', rank, k, Some(n))
    requires x in s && n !in Chain(s, rank, Some(x))
    ensures m'[x].links.container == s[x].links.container
    ensures m'[x].links.contents == s[x].links.contents
  {
    assert UpLinkOk(s, rank, k);
    assert Chain(s, rank, Some(k)) == [k] + Chain(s, rank, Some(n));
    OutsideChainKept(s, m, rank, n, x);
    if k in Chain(s, rank, Some(x)) {
      ChainTrans(s, rank, x, k, n);
    }
    assert x != n;
  }

  /** Outside the subtree of `n`, chains are as they were. */
  lemma OutsideChainKept(s: Nodes, m: Nodes, rank: map<NodeId, nat>, n: NodeId, x: NodeId)
    requires WellFormed(s, rank) && WellFormed(m, rank)
    requires KeptOutside(s, m, rank, n, None)
    requires x in s && n !in Chain(s, rank, Some(x))
    ensures Chain(m, rank, Some(x)) == Chain(s, rank, Some(x))
  {
    forall y | y in Chain(s, rank, Some(x)) ensures m[y].links.container == s[y].links.container {
      if n in Chain(s, rank, Some(y)) {
        ChainTrans(s, rank, x, y, n);
      }
    }
    ChainFrame(s, m, rank, x);
  }

  /** A list whose every diagram object was removed has none left. */
  lemma NoneLeft(b: Nodes, c: seq<NodeId>, d: seq<NodeId>)
    requires forall y :: y in c && y in b && DiagramModelObject in b[y].ifaces ==> y in d
    ensures DiagramObjectsIn(b, WithoutAll(c, d)) == []
  {
  }

  /** A list whose members all lie in the empty list is empty. */
  lemma EmptyWhenNoMember(s: seq<NodeId>, t: seq<NodeId>)
    requires forall r :: r in s ==> r in t
    ensures t == [] ==> s == []
  {
    if s != [] {
      assert s[0] in t;
    }
  }

  // ---------------------------------------------------------------------------
  // The connection deletes

  /** The connection deletes touch only connection lists, and leave `n`
      with none; the outgoing ones deleted are those that were not also
      incoming. */
  lemma ConnectionPhase(a: Nodes, rank: map<NodeId, nat>, n: NodeId)
    requires WellFormed(a, rank) && n in a
    ensures var s2 := ApplyAll(a, ConnectionsPart(a, n));
            && WellFormed(s2, rank)
            && LinksOnly(a, s2)
            && (forall x :: x in a ==> s2[x].links.container == a[x].links.container)
            && (forall x :: x in a ==> s2[x].links.contents == a[x].links.contents)
            && s2[n].links.inRels == [] && s2[n].links.outRels == []
    ensures ConnectionsPart(a, n) ==
              ConnectionDeletes(a[n].links.inRels) + ConnectionDeletes(WithoutAll(a[n].links.outRels, a[n].links.inRels))
    ensures forall y :: DeleteObject(y) !in ConnectionsPart(a, n)
  {
    var ins := a[n].links.inRels;
    assert RelsOk(a, n);
    var c1 := ConnectionDeletes(ins);
    UnlinkStage(a, rank, ins);
    var s1 := UnlinkAll(a, ins);
    var outs := s1[n].links.outRels;
    assert RelsOk(s1, n);
    var c2 := ConnectionDeletes(outs);
    UnlinkStage(s1, rank, outs);
    var s2 := UnlinkAll(s1, outs);
    LinksOnlyTrans(a, s1, s2);
    ApplyAllAppend(a, c1, c2);
    assert ConnectionsPart(a, n) == c1 + c2;
    NoObjectDeletes(ins);
    NoObjectDeletes(outs);
    EmptyWhenNoMember(WithoutAll(ins, ins), []);
    EmptyWhenNoMember(s2[n].links.inRels, []);
    EmptyWhenNoMember(s2[n].links.outRels, []);
  }

  /** Deleting the connections `rs` is unlinking them: it keeps the graph
      well formed and changes connection lists only. */
  lemma UnlinkStage(a: Nodes, rank: map<NodeId, nat>, rs: seq<NodeId>)
    requires WellFormed(a, rank) && forall r :: r in rs ==> r in a
    ensures ApplyAll(a, ConnectionDeletes(rs)) == UnlinkAll(a, rs)
    ensures WellFormed(UnlinkAll(a, rs), rank)
    ensures LinksOnly(a, UnlinkAll(a, rs))
    ensures forall x :: x in a ==> UnlinkAll(a, rs)[x].links.container == a[x].links.container
                                   && UnlinkAll(a, rs)[x].links.contents == a[x].links.contents
  {
    ConnectionDeletesEffect(a, rs);
    UnlinkAllFrame(a, rs);
    ApplyAllWellFormed(a, rank, ConnectionDeletes(rs));
  }

  lemma NoObjectDeletes(rs: seq<NodeId>)
    ensures forall y :: DeleteObject(y) !in ConnectionDeletes(rs)
  {
  }

  // ---------------------------------------------------------------------------
  // The cascade deletes the subtree, and only it

  /** Running the cascade of `n` deletes `n` as `Deleted` says; every object
      it deletes is `n` or ranks below it; it deletes `n` itself exactly when
      `n` has a container. */
  lemma {:induction false} CascadeSpec(a: Nodes, rank: map<NodeId, nat>, n: NodeId)
    requires WellFormed(a, rank) && n in a
    ensures WellFormed(ApplyAll(a, Cascade(a, rank, n)), rank)
    ensures Deleted(a, ApplyAll(a, Cascade(a, rank, n)), rank, n)
    ensures forall y :: DeleteObject(y) in Cascade(a, rank, n) ==> y == n || (y in rank && rank[n] < rank[y])
    ensures DeleteObject(n) in Cascade(a, rank, n) <==> a[n].links.container.Some?
    decreases |rank| - rank[n], 1
  {
    ConnectionPhase(a, rank, n);
    var cs := ConnectionsPart(a, n);
    var s2 := ApplyAll(a, cs);
    ChildrenBelow(s2, rank, n);
    var ks := DiagramChildren(s2, n);
    var c3 := CascadeChildren(s2, rank, n, ks);
    CascadeChildrenSpec(s2, rank, n, ks);
    var s3 := ApplyAll(s2, c3);
    var c4 := SelfDelete(s3, n);
    var cascade := Cascade(a, rank, n);
    assert cascade == cs + c3 + c4;
    ApplyAllAppend(a, cs, c3);
    ApplyAllAppend(a, cs + c3, c4);
    FinishDelete(a, s2, s3, rank, n, ks);
    SelfDeleteLast(a, s2, s3, rank, n, cs, c3);
  }

  /** Which objects a cascade deletes, from the parts it is made of. */
  lemma SelfDeleteLast(a: Nodes, s2: Nodes, s3: Nodes, rank: map<NodeId, nat>, n: NodeId, cs: seq<Command>, c3: seq<Command>)
    requires WellFormed(a, rank) && n in a && n in s3
    requires forall y :: DeleteObject(y) !in cs
    requires forall y :: DeleteObject(y) in c3 ==> y in rank && rank[n] < rank[y]
    requires s3[n].links.container == a[n].links.container
    ensures forall y :: DeleteObject(y) in cs + c3 + SelfDelete(s3, n) ==> y == n || (y in rank && rank[n] < rank[y])
    ensures DeleteObject(n) in cs + c3 + SelfDelete(s3, n) <==> a[n].links.container.Some?
  {
    assert DeleteObject(n) !in c3;
  }

  /** The last step: the self-delete, and what the whole cascade left. */
  lemma FinishDelete(a: Nodes, s2: Nodes, s3: Nodes, rank: map<NodeId, nat>, n: NodeId, ks: seq<NodeId>)
    requires WellFormed(a, rank) && WellFormed(s2, rank) && WellFormed(s3, rank) && n in a
    requires LinksOnly(a, s2)
    requires forall y :: y in a ==> s2[y].links.container == a[y].links.container
    requires forall y :: y in a ==> s2[y].links.contents == a[y].links.contents
    requires s2[n].links.inRels == [] && s2[n].links.outRels == []
    requires ks == DiagramChildren(s2, n)
    requires ChildrenDeleted(s2, s3, rank, n, ks)
    ensures s3[n].links.container == a[n].links.container
    ensures WellFormed(ApplyAll(s3, SelfDelete(s3, n)), rank)
    ensures Deleted(a, ApplyAll(s3, SelfDelete(s3, n)), rank, n)
  {
    var b := ApplyAll(s3, SelfDelete(s3, n));
    ApplyAllWellFormed(s3, rank, SelfDelete(s3, n));
    assert UpLinkOk(s3, rank, n);
    SelfDeleteFrame(s3, n);
    LinksOnlyTrans(a, s2, s3);
    LinksOnlyTrans(a, s3, b);
    LinksOnlyTrans(s2, s3, b);
    FinishOutside(a, s2, s3, b, rank, n);
    FinishParent(a, s2, s3, b, rank, n);
    FinishGone(s2, s3, b, rank, n, ks);
  }

  /** The self-delete detaches `n` and takes it out of its container's
      contents; nothing else changes. */
  lemma SelfDeleteFrame(s: Nodes, n: NodeId)
    requires n in s
    requires s[n].links.container.Some? ==> s[n].links.container.value in s && s[n].links.container.value != n
    ensures var b := ApplyAll(s, SelfDelete(s, n));
            && LinksOnly(s, b)
            && b[n].links.container == None
            && (forall y :: y in s && y != n ==> b[y].links.container == s[y].links.container)
            && (forall y :: y in s && Some(y) != s[n].links.container ==> b[y].links.contents == s[y].links.contents)
            && (s[n].links.container.Some? ==>
                  var p := s[n].links.container.value;
                  b[p].links.contents == Remove(s[p].links.contents, n))
  {
    if s[n].links.container.Some? {
      ApplyAllOne(s, DeleteObject(n));
      assert ApplyAll(s, SelfDelete(s, n)) == Detach(s, n);
      forall y | y in s
        ensures Detach(s, n)[y].ifaces == s[y].ifaces && Detach(s, n)[y].caps == s[y].caps
        ensures Detach(s, n)[y].concept == s[y].concept && Detach(s, n)[y].attrs == s[y].attrs
        ensures Detach(s, n)[y].links.inRels == s[y].links.inRels
        ensures Detach(s, n)[y].links.outRels == s[y].links.outRels
      {
        DetachShape(s, n, y);
      }
      DetachShape(s, n, n);
      DetachShape(s, n, s[n].links.container.value);
      forall y | y in s && y != n ensures Detach(s, n)[y].links.container == s[y].links.container {
        DetachShape(s, n, y);
      }
      forall y | y in s && Some(y) != s[n].links.container
        ensures Detach(s, n)[y].links.contents == s[y].links.contents
      {
        DetachShape(s, n, y);
      }
    } else {
      assert SelfDelete(s, n) == [];
    }
  }

  /** A node outside the subtree of `n` is not `n`, and the connection
      phase and the children cascades left its containment as it was. */
  lemma OutsideUnchanged(a: Nodes, s2: Nodes, s3: Nodes, rank: map<NodeId, nat>, n: NodeId, x: NodeId)
    requires WellFormed(a, rank) && WellFormed(s2, rank) && x in a
    requires a.Keys == s2.Keys
    requires forall y :: y in a ==> s2[y].links.container == a[y].links.container
    requires forall y :: y in a ==> s2[y].links.contents == a[y].links.contents
    requires KeptOutside(s2, s3, rank, n, None)
    requires n !in Chain(a, rank, Some(x))
    ensures x != n
    ensures s3[x].links.container == a[x].links.container
    ensures s3[x].links.contents == a[x].links.contents
  {
    ChainFrame(a, s2, rank, x);
    assert n !in Chain(s2, rank, Some(x));
  }

  /** Outside the subtree of `n`, the whole cascade changed nothing but the
      contents of the container of `n`. */
  lemma FinishOutside(a: Nodes, s2: Nodes, s3: Nodes, b: Nodes, rank: map<NodeId, nat>, n: NodeId)
    requires WellFormed(a, rank) && WellFormed(s2, rank) && n in a
    requires a.Keys == s2.Keys == b.Keys
    requires forall y :: y in a ==> s2[y].links.container == a[y].links.container
    requires forall y :: y in a ==> s2[y].links.contents == a[y].links.contents
    requires KeptOutside(s2, s3, rank, n, None)
    requires s3[n].links.container == a[n].links.container
    requires forall y :: y in s3 && y != n ==> b[y].links.container == s3[y].links.container
    requires forall y :: y in s3 && Some(y) != s3[n].links.container ==> b[y].links.contents == s3[y].links.contents
    ensures KeptOutside(a, b, rank, n, a[n].links.container)
  {
    forall x | x in a && n !in Chain(a, rank, Some(x))
      ensures b[x].links.container == a[x].links.container
      ensures Some(x) != a[n].links.container ==> b[x].links.contents == a[x].links.contents
    {
      OutsideUnchanged(a, s2, s3, rank, n, x);
    }
  }

  /** The container of `n` lost `n` from its contents, and nothing else. */
  lemma FinishParent(a: Nodes, s2: Nodes, s3: Nodes, b: Nodes, rank: map<NodeId, nat>, n: NodeId)
    requires WellFormed(a, rank) && WellFormed(s2, rank) && n in a
    requires a.Keys == s2.Keys == s3.Keys == b.Keys
    requires forall y :: y in a ==> s2[y].links.container == a[y].links.container
    requires forall y :: y in a ==> s2[y].links.contents == a[y].links.contents
    requires KeptOutside(s2, s3, rank, n, None)
    requires s3[n].links.container == a[n].links.container
    requires s3[n].links.container.Some? && s3[n].links.container.value in s3 ==>
               var p := s3[n].links.container.value;
               b[p].links.contents == Remove(s3[p].links.contents, n)
    ensures a[n].links.container.Some? ==>
              var p := a[n].links.container.value;
              b[p].links.contents == Remove(a[p].links.contents, n)
  {
    if a[n].links.container.Some? {
      var p := a[n].links.container.value;
      assert UpLinkOk(a, rank, n);
      ChainRanks(a, rank, p);
      OutsideUnchanged(a, s2, s3, rank, n, p);
    }
  }

  /** `n` ends with no container, no connections and no diagram children. */
  lemma FinishGone(s2: Nodes, s3: Nodes, b: Nodes, rank: map<NodeId, nat>, n: NodeId, ks: seq<NodeId>)
    requires n in s2 && LinksOnly(s2, b) && SameKinds(s2, b)
    requires s2[n].links.inRels == [] && s2[n].links.outRels == []
    requires ks == DiagramChildren(s2, n)
    requires b[n].links.container == None
    requires b[n].links.contents == WithoutAll(s2[n].links.contents, ks)
    ensures Gone(b, n)
  {
    EmptyWhenNoMember(b[n].links.inRels, s2[n].links.inRels);
    EmptyWhenNoMember(b[n].links.outRels, s2[n].links.outRels);
    if DiagramModelContainer in b[n].ifaces {
      NoneLeft(b, s2[n].links.contents, ks);
    }
  }

  /** What running the children cascades `cc` of `n` over `ks` achieves:
      the children are deleted, every object deleted ranks below `n`, and
      each child is deleted. */
  ghost predicate ChildrenCascadeOk(s: Nodes, rank: map<NodeId, nat>, n: NodeId, ks: seq<NodeId>, cc: seq<Command>)
    requires WellFormed(s, rank) && n in s
  {
    && WellFormed(ApplyAll(s, cc), rank)
    && ChildrenDeleted(s, ApplyAll(s, cc), rank, n, ks)
    && (forall y :: DeleteObject(y) in cc ==> y in rank && rank[n] < rank[y])
    && (forall k :: k in ks ==> DeleteObject(k) in cc)
  }

  /** The children cascades delete the children one after the other. */
  lemma {:induction false} CascadeChildrenSpec(s: Nodes, rank: map<NodeId, nat>, n: NodeId, ks: seq<NodeId>)
    requires WellFormed(s, rank) && n in s
    requires NoDup(ks)
    requires forall k :: k in ks ==> k in s && rank[n] < rank[k] && s[k].links.container == Some(n)
    ensures ChildrenCascadeOk(s, rank, n, ks, CascadeChildren(s, rank, n, ks))
    decreases |rank| - rank[n], 0, |ks|
  {
    if ks == [] {
      assert CascadeChildren(s, rank, n, ks) == [];
      WithoutAllNil(s[n].links.contents);
    } else {
      var i := |ks| - 1;
      var k := ks[i];
      var front := ks[..i];
      LastSplit(ks);
      CascadeChildrenSpec(s, rank, n, front);
      CascadeChildrenSnoc(s, rank, n, ks, i);
      var pre := CascadeChildren(s, rank, n, front);
      var m := ApplyAll(s, pre);
      CascadeSpec(m, rank, k);
      ChildCascadeStep(s, rank, n, front, k, pre);
    }
  }

  /** A duplicate-free list is its front and its last element, which is not
      in the front. */
  lemma LastSplit(ks: seq<NodeId>)
    requires NoDup(ks) && ks != []
    ensures ks == ks[..|ks| - 1] + [ks[|ks| - 1]]
    ensures NoDup(ks[..|ks| - 1]) && ks[|ks| - 1] !in ks[..|ks| - 1]
  {
    var front := ks[..|ks| - 1];
    assert forall j :: 0 <= j < |front| ==> front[j] == ks[j];
  }

  /** One more child cascade, after those of `front`. */
  lemma ChildCascadeStep(s: Nodes, rank: map<NodeId, nat>, n: NodeId, front: seq<NodeId>, k: NodeId, pre: seq<Command>)
    requires WellFormed(s, rank) && n in s
    requires k in s && k !in front && rank[n] < rank[k] && s[k].links.container == Some(n)
    requires ChildrenCascadeOk(s, rank, n, front, pre)
    requires var m := ApplyAll(s, pre);
             && WellFormed(m, rank) && k in m
             && WellFormed(ApplyAll(m, Cascade(m, rank, k)), rank)
             && Deleted(m, ApplyAll(m, Cascade(m, rank, k)), rank, k)
             && (forall y :: DeleteObject(y) in Cascade(m, rank, k) ==> y == k || (y in rank && rank[k] < rank[y]))
             && (DeleteObject(k) in Cascade(m, rank, k) <==> m[k].links.container.Some?)
    ensures ChildrenCascadeOk(s, rank, n, front + [k], pre + Cascade(ApplyAll(s, pre), rank, k))
  {
    var m := ApplyAll(s, pre);
    var ck := Cascade(m, rank, k);
    assert m[k].links.container == Some(n);
    ApplyAllAppend(s, pre, ck);
    ChildStep(s, m, ApplyAll(m, ck), rank, n, front, k);
    ChildDeletes(rank, n, k, front, pre, ck);
  }

  /** The deletes of one more child cascade keep to the subtree of `n`,
      and add the delete of that child. */
  lemma ChildDeletes(rank: map<NodeId, nat>, n: NodeId, k: NodeId, front: seq<NodeId>, pre: seq<Command>, ck: seq<Command>)
    requires n in rank && k in rank && rank[n] < rank[k]
    requires forall y :: DeleteObject(y) in pre ==> y in rank && rank[n] < rank[y]
    requires forall j :: j in front ==> DeleteObject(j) in pre
    requires forall y :: DeleteObject(y) in ck ==> y == k || (y in rank && rank[k] < rank[y])
    requires DeleteObject(k) in ck
    ensures forall y :: DeleteObject(y) in pre + ck ==> y in rank && rank[n] < rank[y]
    ensures forall j :: j in front + [k] ==> DeleteObject(j) in pre + ck
  {
  }
  // ---------------------------------------------------------------------------
  // Consequences

  /** The children cascades of the cascade of `n`. */
  ghost function ChildrenPart(a: Nodes, rank: map<NodeId, nat>, n: NodeId): seq<Command>
    requires WellFormed(a, rank) && n in a
  {
    var cs := ConnectionsPart(a, n);
    ApplyAllWellFormed(a, rank, cs);
    var s2 := ApplyAll(a, cs);
    ChildrenBelow(s2, rank, n);
    CascadeChildren(s2, rank, n, DiagramChildren(s2, n))
  }

  /** The self-delete at the end of the cascade of `n`, if any. */
  ghost function SelfPart(a: Nodes, rank: map<NodeId, nat>, n: NodeId): seq<Command>
    requires WellFormed(a, rank) && n in a
  {
    var cs := ConnectionsPart(a, n);
    ApplyAllWellFormed(a, rank, cs);
    var s2 := ApplyAll(a, cs);
    ApplyAllWellFormed(s2, rank, ChildrenPart(a, rank, n));
    SelfDelete(ApplyAll(s2, ChildrenPart(a, rank, n)), n)
  }

  lemma CascadeParts(a: Nodes, rank: map<NodeId, nat>, n: NodeId)
    requires WellFormed(a, rank) && n in a
    ensures Cascade(a, rank, n) == ConnectionsPart(a, n) + ChildrenPart(a, rank, n) + SelfPart(a, rank, n)
    ensures SelfPart(a, rank, n) == [] || SelfPart(a, rank, n) == [DeleteObject(n)]
  {
  }

  lemma ConnectionsPartShape(a: Nodes, rank: map<NodeId, nat>, n: NodeId)
    requires WellFormed(a, rank) && n in a
    ensures ConnectionsPart(a, n) ==
              ConnectionDeletes(a[n].links.inRels) + ConnectionDeletes(WithoutAll(a[n].links.outRels, a[n].links.inRels))
  {
    ConnectionPhase(a, rank, n);
  }

  lemma SelfDeleteIff(a: Nodes, rank: map<NodeId, nat>, n: NodeId)
    requires WellFormed(a, rank) && n in a
    ensures DeleteObject(n) in Cascade(a, rank, n) <==> a[n].links.container.Some?
  {
    CascadeSpec(a, rank, n);
  }

  lemma ChildrenPartBelow(a: Nodes, rank: map<NodeId, nat>, n: NodeId)
    requires WellFormed(a, rank) && n in a
    ensures forall y :: DeleteObject(y) in ChildrenPart(a, rank, n) ==> y in rank && rank[n] < rank[y]
  {
    var cs := ConnectionsPart(a, n);
    ApplyAllWellFormed(a, rank, cs);
    var s2 := ApplyAll(a, cs);
    ChildrenBelow(s2, rank, n);
    CascadeChildrenSpec(s2, rank, n, DiagramChildren(s2, n));
  }

  /** The cascade ends with the self-delete exactly when `n` has a container. */
  lemma SelfPartSpec(a: Nodes, rank: map<NodeId, nat>, n: NodeId)
    requires WellFormed(a, rank) && n in a
    ensures SelfPart(a, rank, n) == if a[n].links.container.Some? then [DeleteObject(n)] else []
  {
    CascadeParts(a, rank, n);
    SelfDeleteIff(a, rank, n);
    ChildrenPartBelow(a, rank, n);
    ConnectionPhase(a, rank, n);
    assert DeleteObject(n) !in ChildrenPart(a, rank, n);
  }

  /** `c` starts with the deletes of the connections `ins`, then those of
      `outs`, and ends with the delete of `n` exactly when `self` holds. */
  ghost predicate InDeleteOrder(c: seq<Command>, ins: seq<NodeId>, outs: seq<NodeId>, n: NodeId, self: bool) {
    && |ins| + |outs| <= |c|
    && c[..|ins|] == ConnectionDeletes(ins)
    && c[|ins|..|ins| + |outs|] == ConnectionDeletes(outs)
    && (self <==> c != [] && c[|c| - 1] == DeleteObject(n))
  }

  /** Where the parts of a cascade sit. */
  lemma PartsInOrder(c: seq<Command>, ins: seq<NodeId>, outs: seq<NodeId>, mid: seq<Command>, last: seq<Command>, n: NodeId)
    requires c == ConnectionDeletes(ins) + ConnectionDeletes(outs) + mid + last
    requires last == [] || last == [DeleteObject(n)]
    requires DeleteObject(n) !in mid
    ensures InDeleteOrder(c, ins, outs, n, last == [DeleteObject(n)])
  {
    assert c[..|ins|] == ConnectionDeletes(ins);
    assert c[|ins|..|ins| + |outs|] == ConnectionDeletes(outs);
    NoObjectDeletes(ins);
    NoObjectDeletes(outs);
    if c != [] {
      assert c[|c| - 1] in c;
    }
  }

  /** The cascade keeps the order of `delete()`: first the incoming
      connections, then the outgoing ones that are left, and last the
      object itself exactly when it has a container. */
  lemma CascadeOrder(a: Nodes, rank: map<NodeId, nat>, n: NodeId)
    requires WellFormed(a, rank) && n in a
    ensures InDeleteOrder(Cascade(a, rank, n), a[n].links.inRels,
                          WithoutAll(a[n].links.outRels, a[n].links.inRels), n, a[n].links.container.Some?)
  {
    var ins := a[n].links.inRels;
    var outs := WithoutAll(a[n].links.outRels, ins);
    CascadeParts(a, rank, n);
    ConnectionsPartShape(a, rank, n);
    SelfPartSpec(a, rank, n);
    ChildrenPartBelow(a, rank, n);
    PartsInOrder(Cascade(a, rank, n), ins, outs, ChildrenPart(a, rank, n), SelfPart(a, rank, n), n);
  }

  /** A deleted object has nothing left for a second cascade to delete. */
  lemma CascadeOfGone(b: Nodes, rank: map<NodeId, nat>, n: NodeId)
    requires WellFormed(b, rank) && n in b && Gone(b, n)
    ensures Cascade(b, rank, n) == []
  {
    assert ConnectionDeletes([]) == [];
    assert ConnectionsPart(b, n) == [];
    assert CascadeChildren(b, rank, n, []) == [];
  }

  /** Deleting an object twice: the second delete issues no command, in
      particular no second self-delete. */
  lemma DeleteTwice(a: Nodes, rank: map<NodeId, nat>, n: NodeId)
    requires WellFormed(a, rank) && n in a
    ensures var b := ApplyAll(a, Cascade(a, rank, n));
            WellFormed(b, rank) && n in b && b[n].links.container == None && Cascade(b, rank, n) == []
  {
    CascadeSpec(a, rank, n);
    CascadeOfGone(ApplyAll(a, Cascade(a, rank, n)), rank, n);
  }
  // ---------------------------------------------------------------------------
  // The cascade step by step, as `delete()` runs it

  /** The two connection loops together run the connection deletes. */
  lemma ConnectionsRun(a: Nodes, n: NodeId)
    requires n in a
    ensures var c1 := ConnectionDeletes(a[n].links.inRels);
            var s1 := ApplyAll(a, c1);
            n in s1
            && ConnectionsPart(a, n) == c1 + ConnectionDeletes(s1[n].links.outRels)
            && ApplyAll(s1, ConnectionDeletes(s1[n].links.outRels)) == ApplyAll(a, ConnectionsPart(a, n))
  {
    var c1 := ConnectionDeletes(a[n].links.inRels);
    ApplyAllSameKinds(a, c1);
    var s1 := ApplyAll(a, c1);
    ApplyAllAppend(a, c1, ConnectionDeletes(s1[n].links.outRels));
  }

  /** The children loop, run on the state the connection loops left, runs
      the children cascades. */
  lemma ChildrenRun(a: Nodes, rank: map<NodeId, nat>, n: NodeId)
    requires WellFormed(a, rank) && n in a
    ensures var s2 := ApplyAll(a, ConnectionsPart(a, n));
            && WellFormed(s2, rank) && n in s2
            && (forall k :: k in DiagramChildren(s2, n) ==>
                  k in s2 && k in rank && rank[n] < rank[k] && DiagramModelObject in s2[k].ifaces)
            && ChildrenPart(a, rank, n) == CascadeChildren(s2, rank, n, DiagramChildren(s2, n))
            && ApplyAll(s2, ChildrenPart(a, rank, n)) == ApplyAll(a, ConnectionsPart(a, n) + ChildrenPart(a, rank, n))
  {
    var cs := ConnectionsPart(a, n);
    ApplyAllWellFormed(a, rank, cs);
    var s2 := ApplyAll(a, cs);
    ChildrenBelow(s2, rank, n);
    ApplyAllAppend(a, cs, ChildrenPart(a, rank, n));
  }

  /** The self-delete, run on the state the children loop left, completes
      the cascade. */
  lemma SelfRun(a: Nodes, rank: map<NodeId, nat>, n: NodeId)
    requires WellFormed(a, rank) && n in a
    ensures var s3 := ApplyAll(a, ConnectionsPart(a, n) + ChildrenPart(a, rank, n));
            && n in s3
            && SelfPart(a, rank, n) == SelfDelete(s3, n)
            && ApplyAll(s3, SelfPart(a, rank, n)) == ApplyAll(a, Cascade(a, rank, n))
            && ConnectionsPart(a, n) + ChildrenPart(a, rank, n) + SelfPart(a, rank, n) == Cascade(a, rank, n)
  {
    var cs := ConnectionsPart(a, n);
    ApplyAllWellFormed(a, rank, cs);
    var s2 := ApplyAll(a, cs);
    ApplyAllAppend(a, cs, ChildrenPart(a, rank, n));
    ApplyAllSameKinds(a, cs + ChildrenPart(a, rank, n));
    CascadeParts(a, rank, n);
    ApplyAllAppend(a, cs + ChildrenPart(a, rank, n), SelfPart(a, rank, n));
  }

  /** The commands of the first `i` child cascades of `ks`. */
  ghost function ChildrenUpTo(s: Nodes, rank: map<NodeId, nat>, n: NodeId, ks: seq<NodeId>, i: nat): seq<Command>
    requires WellFormed(s, rank) && n in s
    requires forall k :: k in ks ==> k in s && rank[n] < rank[k]
    requires i <= |ks|
  {
    assert forall k :: k in ks[..i] ==> k in ks;
    CascadeChildren(s, rank, n, ks[..i])
  }

  /** No child cascade done yet, and all of them done. */
  lemma ChildrenUpToEnds(s: Nodes, rank: map<NodeId, nat>, n: NodeId, ks: seq<NodeId>)
    requires WellFormed(s, rank) && n in s
    requires forall k :: k in ks ==> k in s && rank[n] < rank[k]
    ensures ChildrenUpTo(s, rank, n, ks, 0) == []
    ensures ChildrenUpTo(s, rank, n, ks, |ks|) == CascadeChildren(s, rank, n, ks)
  {
    assert ks[..0] == [];
    assert ks[..|ks|] == ks;
  }

  /** One more child cascade in the children loop. */
  lemma ChildRun(s: Nodes, rank: map<NodeId, nat>, n: NodeId, ks: seq<NodeId>, i: nat)
    requires WellFormed(s, rank) && n in s
    requires forall k :: k in ks ==> k in s && rank[n] < rank[k]
    requires i < |ks|
    ensures var m := ApplyAll(s, ChildrenUpTo(s, rank, n, ks, i));
            && WellFormed(m, rank) && ks[i] in m
            && ChildrenUpTo(s, rank, n, ks, i + 1) == ChildrenUpTo(s, rank, n, ks, i) + Cascade(m, rank, ks[i])
            && ApplyAll(m, Cascade(m, rank, ks[i])) == ApplyAll(s, ChildrenUpTo(s, rank, n, ks, i + 1))
  {
    CascadeChildrenSnoc(s, rank, n, ks, i);
    var pre := CascadeChildren(s, rank, n, ks[..i]);
    ApplyAllSameKinds(s, pre);
    var m := ApplyAll(s, pre);
    ApplyAllAppend(s, pre, Cascade(m, rank, ks[i]));
  }
}
