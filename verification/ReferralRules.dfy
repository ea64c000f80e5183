/** Who may refer whom: when the operations of `ReferralGraph` go through, and which edges they can make. */
module ReferralRules {
  import opened Wrappers
  import opened Membership
  import opened ReferralGraph

  /** A member of the organisation who is not suspended, deceased or rejected. */
  ghost predicate Eligible(g: Graph, r: Id, org: nat) {
    r in g && g[r].org == org && g[r].status !in {SUSPENDED, DECEASED, REJECTED}
  }

  /** The member is one of the organisation's, and the caller may edit it. */
  ghost predicate Theirs(g: Graph, id: Id, org: nat, owned: bool) { id in g && g[id].org == org && owned }

  ghost function WithReferrer(g: Graph, id: Id, referrer: Option<Id>): Graph
    requires id in g
  {
    g[id := g[id].(referrer := referrer)]
  }

  // ---- When operations go through ----

  /** A registration goes through exactly without a referrer or under an eligible one. */
  lemma RegisterExactly(g: Graph, id: Id, org: nat, referrer: Option<Id>)
    requires id !in g
    ensures var (g', error) := Apply(g, Register(id, org, referrer));
      if referrer.None? || Eligible(g, referrer.value, org)
      then error.None? && g' == g[id := Node(org, referrer, DRAFT)]
      else error == Some(ReferrerNotFound) && g' == g
  {
  }

  /** On a forest, the verdict on a referrer in terms of the two members and of the forest with the new edge. */
  lemma VerdictExactly(g: Graph, id: Id, r: Id)
    requires Forest(g) && id in g
    ensures ReferrerError(g, Some(r), id, g[id].org) ==
      if r == id then Some(SelfReferral)
      else if r !in g || g[r].org != g[id].org then Some(ReferrerNotFound)
      else if g[r].status in {SUSPENDED, DECEASED, REJECTED} then Some(ReferrerBlocked)
      else if !Acyclic(WithReferrer(g, id, Some(r))) then Some(Loop)
      else None
  {
    hide Acyclic, Linked, Above, ChainRepeats;
    if r != id && r in g && g[r].org == g[id].org && !Blocked(g[r].status) { LoopExactly(g, id, r); }
  }

  /** No member refers itself, so an edge to itself would close a cycle. */
  lemma SelfCloses(g: Graph, id: Id)
    requires id in g
    ensures !Acyclic(WithReferrer(g, id, Some(id)))
  {
    var g' := WithReferrer(g, id, Some(id));
    assert Up(g', id, 0) == Some(id);
    assert Up(g', id, 1) == Some(id);
  }

  /**
    An update goes through exactly if the member is theirs, its status leaves it editable, and the
    referrer is kept, cleared, or set to an eligible member such that no cycle is closed.
   */
  lemma UpdateExactly(g: Graph, id: Id, org: nat, owned: bool, patch: Patch)
    requires Forest(g)
    ensures var (g', error) := Apply(g, Update(id, org, owned, patch));
      && (error.None? <==>
            && Theirs(g, id, org, owned) && g[id].status !in {REJECTED, DECEASED, VERIFIED}
            && (patch.Set? ==>
                  Eligible(g, patch.referrer, org) && Acyclic(WithReferrer(g, id, Some(patch.referrer)))))
      && g' == (if error.Some? || patch.Keep? then g
                else WithReferrer(g, id, if patch.Set? then Some(patch.referrer) else None))
      && (!Theirs(g, id, org, owned) ==> error == Some(NotFound))
      && (Theirs(g, id, org, owned) && g[id].status in {REJECTED, DECEASED, VERIFIED} ==> error == Some(NotEditable))
  {
    if Theirs(g, id, org, owned) && patch.Set? {
      VerdictExactly(g, id, patch.referrer);
      SelfCloses(g, id);
    }
    hide Acyclic, Linked, Above, ChainRepeats;
  }

  /** A removal goes through exactly for a DRAFT of theirs; its edges go with it, and nothing else changes. */
  lemma RemoveExactly(g: Graph, id: Id, org: nat, owned: bool, x: Id)
    ensures var (g', error) := Apply(g, Remove(id, org, owned));
      && (error.None? <==> Theirs(g, id, org, owned) && g[id].status == DRAFT)
      && (!Theirs(g, id, org, owned) ==> error == Some(NotFound))
      && (Theirs(g, id, org, owned) && g[id].status != DRAFT ==> error == Some(NotDraft))
      && (error.Some? ==> g' == g)
      && (error.None? ==>
            && (x in g' <==> x in g && x != id)
            && (x in g' ==> g'[x] == g[x].(referrer := if g[x].referrer == Some(id) then None else g[x].referrer)))
  {
  }

  // ---- The edges ----

  ghost predicate Edge(g: Graph, x: Id, r: Id) { x in g && g[x].referrer == Some(r) }

  /** Whatever the graph, a new edge goes to a member that is eligible at that time. */
  lemma NewEdgeEligible(g: Graph, op: Op, x: Id, r: Id)
    requires Edge(Apply(g, op).0, x, r) && !Edge(g, x, r)
    ensures Eligible(g, r, Apply(g, op).0[x].org)
  {
    hide Above, ChainRepeats;
  }

  /** The `k`-th operation makes the edge, towards a member then eligible. */
  ghost predicate MadeAt(g: Graph, ops: seq<Op>, k: nat, x: Id, r: Id)
    requires k < |ops|
  {
    var before, after := Run(g, ops[..k]), Run(g, ops[..k + 1]);
    !Edge(before, x, r) && Edge(after, x, r) && Eligible(before, r, after[x].org)
  }

  /** In every run, each edge was there at the start or was made towards a member then eligible. */
  lemma {:induction false} EdgesEligible(g: Graph, ops: seq<Op>, x: Id, r: Id)
    requires Edge(Run(g, ops), x, r)
    ensures Edge(g, x, r) || exists k :: 0 <= k < |ops| && MadeAt(g, ops, k, x, r)
  {
    if ops != [] {
      var n := |ops| - 1;
      var before := Run(g, ops[..n]);
      assert Run(g, ops) == Apply(before, ops[n]).0;
      hide Run, Apply, Eligible;
      assert ops[..n + 1] == ops;
      if Edge(before, x, r) {
        EdgesEligible(g, ops[..n], x, r);
        if !Edge(g, x, r) {
          var k :| 0 <= k < n && MadeAt(g, ops[..n], k, x, r);
          assert ops[..n][..k] == ops[..k] && ops[..n][..k + 1] == ops[..k + 1];
          assert MadeAt(g, ops, k, x, r);
        }
      } else {
        NewEdgeEligible(before, ops[n], x, r);
        assert MadeAt(g, ops, n, x, r);
      }
    }
  }

  /** Organisations never change, and statuses by a status change only; new members are drafts. */
  lemma OthersStay(g: Graph, op: Op, x: Id)
    requires x in Apply(g, op).0
    ensures var node := Apply(g, op).0[x];
      if x !in g then op.Register? && op.id == x && node == Node(op.org, op.referrer, DRAFT)
      else
        && node.org == g[x].org
        && node.status == if op.ChangeStatus? && op.id == x then op.status else g[x].status
  {
  }

  // ---- The tree ----

  ghost predicate InOrder(ids: seq<Id>, x: Id, y: Id) {
    exists p, q :: 0 <= p < q < |ids| && ids[p] == x && ids[q] == y
  }

  /** The children of a node are the members it referred, in the order of the table. */
  lemma {:induction false} ChildrenInOrder(g: Graph, order: seq<Id>, x: Id, i: nat, j: nat)
    requires i < j < |order| && Edge(g, order[i], x) && Edge(g, order[j], x)
    ensures InOrder(Children(g, order, x), order[i], order[j])
  {
    var all, rest := Children(g, order, x), Children(g, order[1..], x);
    assert all == rest || all == [order[0]] + rest;
    if i > 0 {
      ChildrenInOrder(g, order[1..], x, i - 1, j - 1);
      OrderKept(rest, all, order[i], order[j]);
    } else {
      ChildListed(g, order[1..], x, j - 1);
      var q :| 0 <= q < |rest| && rest[q] == order[j];
      assert all[0] == order[0] && all[q + 1] == order[j];
    }
  }

  lemma OrderKept(rest: seq<Id>, all: seq<Id>, x: Id, y: Id)
    requires InOrder(rest, x, y) && (all == rest || exists z :: all == [z] + rest)
    ensures InOrder(all, x, y)
  {
    var p, q :| 0 <= p < q < |rest| && rest[p] == x && rest[q] == y;
    var shift := |all| - |rest|;
    assert all[p + shift] == x && all[q + shift] == y;
  }

  lemma {:induction false} ChildListed(g: Graph, order: seq<Id>, x: Id, j: nat)
    requires j < |order| && Edge(g, order[j], x)
    ensures order[j] in Children(g, order, x)
  {
    if j > 0 { ChildListed(g, order[1..], x, j - 1); }
  }

  /** Above the depth limit a tree node has exactly these children, in this order. */
  lemma NodeChildren(g: Graph, order: seq<Id>, x: Id, depth: nat, i: nat)
    requires depth < 5 && i < |Children(g, order, x)|
    ensures var t := BuildNetworkNode(g, order, x, depth);
      |t.children| == |Children(g, order, x)| && t.children[i].id == Children(g, order, x)[i]
  {
    AllIds(g, order, Children(g, order, x), depth + 1, i);
  }

  lemma {:induction false} AllIds(g: Graph, order: seq<Id>, xs: seq<Id>, depth: nat, i: nat)
    requires depth <= 5 && i < |xs|
    ensures |BuildAll(g, order, xs, depth)| == |xs| && BuildAll(g, order, xs, depth)[i].id == xs[i]
  {
    if i > 0 {
      AllIds(g, order, xs[1..], depth, i - 1);
    } else if |xs| > 1 {
      AllIds(g, order, xs[1..], depth, 0);
    }
  }
}
