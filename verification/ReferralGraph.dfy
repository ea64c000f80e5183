/**
  The referral graph: the cycle check and the writes that add or drop referrer edges
  (apps/api/src/members/members.service.ts, apps/api/src/member-auth/member-auth.service.ts),
  and the downline tree (apps/api/src/referrals/referrals.service.ts).
 */
module ReferralGraph {
  import opened Wrappers
  import opened Membership

  type Id = nat

  datatype Node = Node(org: nat, referrer: Option<Id>, status: Status)

  type Graph = map<Id, Node>

  /** The member `k` referral edges above `x`. */
  ghost function Up(g: Graph, x: Id, k: nat): Option<Id> {
    if k == 0 then Some(x)
    else match Up(g, x, k - 1)
      case None => None
      case Some(y) => if y in g then g[y].referrer else None
  }

  /** Referrers exist and belong to the same organisation. */
  ghost predicate Linked(g: Graph) {
    forall x :: x in g && g[x].referrer.Some? ==>
      g[x].referrer.value in g && g[g[x].referrer.value].org == g[x].org
  }

  /** `m` is `r` or lies above it. */
  ghost predicate AtOrAbove(g: Graph, r: Id, m: Id) { exists k: nat :: Up(g, r, k) == Some(m) }

  ghost predicate Acyclic(g: Graph) {
    forall x, k: nat :: x in g && k > 0 ==> Up(g, x, k) != Some(x)
  }

  ghost predicate Forest(g: Graph) { Linked(g) && Acyclic(g) }

  /** The part of the graph that queries scoped to one organisation see. */
  function Within(g: Graph, org: nat): Graph { map x | x in g && g[x].org == org :: g[x] }

  // ---- Chains ----

  lemma {:induction false} UpAdd(g: Graph, x: Id, y: Id, i: nat, j: nat)
    requires Up(g, x, i) == Some(y)
    ensures Up(g, x, i + j) == Up(g, y, j)
  {
    if j > 0 { UpAdd(g, x, y, i, j - 1); }
  }

  /** Above a member with a referrer the chain goes on above the referrer. */
  lemma UpTail(g: Graph, x: Id, k: nat)
    requires x in g && g[x].referrer.Some? && k > 0
    ensures Up(g, x, k) == Up(g, g[x].referrer.value, k - 1)
  {
    assert Up(g, x, 0) == Some(x) && Up(g, x, 1) == g[x].referrer;
    UpAdd(g, x, g[x].referrer.value, 1, k - 1);
  }

  /** The first step at which the chain from `x` meets `m`. */
  lemma {:induction false} FirstMeeting(g: Graph, x: Id, m: Id, k: nat) returns (s: nat)
    requires Up(g, x, k) == Some(m)
    ensures s <= k && Up(g, x, s) == Some(m) && forall i: nat :: i < s ==> Up(g, x, i) != Some(m)
  {
    s := 0;
    while Up(g, x, s) != Some(m)
      invariant s <= k && forall i: nat :: i < s ==> Up(g, x, i) != Some(m)
      decreases k - s
    {
      s := s + 1;
    }
  }

  /** The graphs differ in the edge of `m` only. */
  ghost predicate SameExcept(g: Graph, g': Graph, m: Id) {
    forall y :: y != m ==> (y in g <==> y in g') && (y in g ==> g[y].referrer == g'[y].referrer)
  }

  /** Then they have the same chains up to the first visit to `m`. */
  lemma {:induction false} SameUntil(g: Graph, g': Graph, x: Id, m: Id, k: nat)
    requires SameExcept(g, g', m)
    requires forall i: nat :: i < k ==> Up(g, x, i) != Some(m)
    ensures Up(g', x, k) == Up(g, x, k)
  {
    if k > 0 { SameUntil(g, g', x, m, k - 1); }
  }

  /** Replacing the referrer of `m` by `r` closes a cycle exactly when `r` is `m` or lies below it. */
  lemma CycleExactly(g: Graph, m: Id, r: Id)
    requires Acyclic(g) && m in g && r in g
    ensures Acyclic(g[m := g[m].(referrer := Some(r))]) <==> !AtOrAbove(g, r, m)
  {
    var g' := g[m := g[m].(referrer := Some(r))];
    if k: nat :| Up(g, r, k) == Some(m) {
      var s := FirstMeeting(g, r, m, k);
      SameUntil(g, g', r, m, s);
      UpTail(g', m, s + 1);
      assert Up(g', m, s + 1) == Some(m);
    } else {
      forall x, k: nat | x in g' && k > 0
        ensures Up(g', x, k) != Some(x)
      {
        if Up(g', x, k) == Some(x) { NewCycleMeets(g, g', x, m, r, k); }
      }
    }
  }

  /** A cycle that only the new edge can have closed shows that `r` lay below `m` before. */
  lemma NewCycleMeets(g: Graph, g': Graph, x: Id, m: Id, r: Id, k: nat)
    requires Acyclic(g) && m in g && x in g && g' == g[m := g[m].(referrer := Some(r))]
    requires k > 0 && Up(g', x, k) == Some(x)
    ensures AtOrAbove(g, r, m)
  {
    assert SameExcept(g', g, m);
    if i: nat :| i < k && Up(g', x, i) == Some(m) {
      hide SameExcept, AtOrAbove, Acyclic;
      UpAdd(g', x, m, i, k - i);
      UpAdd(g', m, x, k - i, i);
      MeetsBelow(g, g', m, r, k);
    } else {
      SameUntil(g', g, x, m, k);
    }
  }

  lemma MeetsBelow(g: Graph, g': Graph, m: Id, r: Id, k: nat)
    requires m in g' && g'[m].referrer == Some(r) && SameExcept(g', g, m)
    requires k > 0 && Up(g', m, k) == Some(m)
    ensures AtOrAbove(g, r, m)
  {
    hide SameExcept;
    UpTail(g', m, k);
    var s := FirstMeeting(g', r, m, k - 1);
    SameUntil(g', g, r, m, s);
  }

  /** Dropping edges or members closes no cycle. */
  lemma FewerEdges(g: Graph, g': Graph)
    requires Acyclic(g)
    requires forall x :: x in g' ==> x in g && (g'[x].referrer.Some? ==> g'[x].referrer == g[x].referrer)
    ensures Acyclic(g')
  {
    forall x, k: nat | x in g' && k > 0
      ensures Up(g', x, k) != Some(x)
    {
      FewerChains(g, g', x, k);
    }
  }

  lemma {:induction false} FewerChains(g: Graph, g': Graph, x: Id, k: nat)
    requires forall y :: y in g' ==> y in g && (g'[y].referrer.Some? ==> g'[y].referrer == g[y].referrer)
    ensures Up(g', x, k).Some? ==> Up(g, x, k) == Up(g', x, k)
  {
    if k > 0 { FewerChains(g, g', x, k - 1); }
  }

  lemma {:induction false} StaysInside(g: Graph, x: Id, k: nat)
    requires Linked(g) && x in g
    ensures Up(g, x, k).Some? ==> Up(g, x, k).value in g && g[Up(g, x, k).value].org == g[x].org
  {
    if k > 0 { StaysInside(g, x, k - 1); }
  }

  /** A fresh member below an existing one closes no cycle. */
  lemma FreshMember(g: Graph, id: Id, node: Node)
    requires Forest(g) && id !in g
    requires node.referrer.Some? ==> node.referrer.value in g && g[node.referrer.value].org == node.org
    ensures Forest(g[id := node])
  {
    var g' := g[id := node];
    forall x, k: nat | x in g' && k > 0
      ensures Up(g', x, k) != Some(x)
    {
      if x == id {
        if node.referrer.Some? {
          UpTail(g', id, k);
          NeverFresh(g, g', node.referrer.value, id, k - 1);
        } else {
          assert Up(g', id, 1) == None by { assert Up(g', id, 0) == Some(id); }
          NothingAbove(g', id, 1, k);
        }
      } else {
        NeverFresh(g, g', x, id, k);
      }
    }
  }

  lemma {:induction false} NeverFresh(g: Graph, g': Graph, x: Id, id: Id, k: nat)
    requires Linked(g) && x in g && id !in g && id in g' && g' == g[id := g'[id]]
    ensures Up(g', x, k) == Up(g, x, k) != Some(id)
  {
    StaysInside(g, x, k);
    if k > 0 { NeverFresh(g, g', x, id, k - 1); }
  }

  lemma {:induction false} NothingAbove(g: Graph, x: Id, i: nat, k: nat)
    requires Up(g, x, i) == None && i <= k
    ensures Up(g, x, k) == None
    decreases k
  {
    if i < k { NothingAbove(g, x, i, k - 1); }
  }

  // ---- The cycle check ----

  /** The chain above `r` comes back to itself. */
  ghost predicate ChainRepeats(g: Graph, r: Id) {
    exists i: nat, k: nat :: i < k && Up(g, r, k).Some? && Up(g, r, i) == Up(g, r, k)
  }

  ghost predicate Above(g: Graph, r: Id, m: Id) { exists k: nat :: k > 0 && Up(g, r, k) == Some(m) }

  datatype GraphError = NotFound | SelfReferral | ReferrerNotFound | ReferrerBlocked | Loop | NotDraft | NotEditable

  /** The verdict on a proposed referrer, on any graph. */
  ghost function ReferrerError(g: Graph, referrer: Option<Id>, m: Id, org: nat): Option<GraphError> {
    var h := Within(g, org);
    match referrer
    case None => None
    case Some(r) =>
      if r == m then Some(SelfReferral)
      else if r !in h then Some(ReferrerNotFound)
      else if Blocked(h[r].status) then Some(ReferrerBlocked)
      else if Above(h, r, m) || ChainRepeats(h, r) then Some(Loop)
      else None
  }

  /** One of the first `k` steps up from `r` leads to `y`. */
  ghost predicate Passed(h: Graph, r: Id, k: nat, y: Id) { exists i: nat :: i <= k && Up(h, r, i) == Some(y) }

  /** `k` steps up from `r` passed exactly the visited ids, none of them twice and none of them `m`. */
  ghost predicate Walked(h: Graph, r: Id, m: Id, visited: set<Id>, k: nat) {
    && Up(h, r, k).Some?
    && (forall y :: y in visited <==> Passed(h, r, k, y))
    && (forall i: nat :: 0 < i <= k ==> Up(h, r, i) != Some(m))
    && (forall i: nat, j: nat :: i < j <= k ==> Up(h, r, i) != Up(h, r, j))
  }

  lemma PassedNext(h: Graph, r: Id, k: nat, y: Id)
    ensures Passed(h, r, k + 1, y) <==> Passed(h, r, k, y) || Up(h, r, k + 1) == Some(y)
  {
    if Passed(h, r, k, y) {
      var i: nat :| i <= k && Up(h, r, i) == Some(y);
      assert i <= k + 1 && Up(h, r, i) == Some(y);
    }
  }

  lemma WalkOn(h: Graph, r: Id, m: Id, visited: set<Id>, k: nat, next: Id)
    requires Walked(h, r, m, visited, k) && Up(h, r, k + 1) == Some(next)
    requires next != m && next !in visited
    ensures Walked(h, r, m, visited + {next}, k + 1)
  {
    forall y
      ensures y in visited + {next} <==> Passed(h, r, k + 1, y)
    {
      PassedNext(h, r, k, y);
    }
    forall i: nat | i <= k
      ensures Up(h, r, i) != Some(next)
    {
      assert !Passed(h, r, k, next);
    }
    hide Up, Passed;
  }

  lemma FirstWalked(h: Graph, r: Id, m: Id)
    ensures Walked(h, r, m, {r}, 0)
  {
    assert Up(h, r, 0) == Some(r);
  }

  lemma WalkLoops(h: Graph, r: Id, m: Id, visited: set<Id>, k: nat, next: Id)
    requires Walked(h, r, m, visited, k) && Up(h, r, k + 1) == Some(next)
    requires next == m || next in visited
    ensures Above(h, r, m) || ChainRepeats(h, r)
  {
    if next != m {
      var i: nat :| i <= k && Up(h, r, i) == Some(next);
      assert i < k + 1 && Up(h, r, i) == Up(h, r, k + 1);
    }
  }

  /** The walk stopped at the top of the chain. */
  lemma WalkEnd(h: Graph, r: Id, m: Id, visited: set<Id>, k: nat)
    requires Walked(h, r, m, visited, k) && Up(h, r, k + 1) == None
    ensures !Above(h, r, m) && !ChainRepeats(h, r)
  {
    forall i: nat | i > k
      ensures Up(h, r, i) == None
    {
      NothingAbove(h, r, k + 1, i);
    }
  }

  // ---- The operations ----

  /** A referrer field in an update request: absent, null, or a member id. */
  datatype Patch = Keep | Clear | Set(referrer: Id)

  datatype Op =
    | Register(id: Id, org: nat, referrer: Option<Id>)
    | Update(id: Id, org: nat, owned: bool, patch: Patch)
    | Remove(id: Id, org: nat, owned: bool)
    | ChangeStatus(id: Id, status: Status)

  /** What an operation leaves in the table, and its error; a failing one changes nothing. */
  ghost function Apply(g: Graph, op: Op): (Graph, Option<GraphError>) {
    match op
    case Register(id, org, referrer) =>
      if id in g then (g, None)
      else if referrer.Some? && (referrer.value !in Within(g, org) || Blocked(g[referrer.value].status)) then
        (g, Some(ReferrerNotFound))
      else (g[id := Node(org, referrer, DRAFT)], None)
    case Update(id, org, owned, patch) =>
      if id !in Within(g, org) || !owned then (g, Some(NotFound))
      else if !Editable(g[id].status) then (g, Some(NotEditable))
      else if patch.Keep? then (g, None)
      else
        var referrer := if patch.Set? then Some(patch.referrer) else None;
        var error := ReferrerError(g, referrer, id, org);
        if error.Some? then (g, error) else (g[id := g[id].(referrer := referrer)], None)
    case Remove(id, org, owned) =>
      if id !in Within(g, org) || !owned then (g, Some(NotFound))
      else if g[id].status != DRAFT then (g, Some(NotDraft))
      else (Unlinked(g, id), None)
    case ChangeStatus(id, status) =>
      (if id in g then g[id := g[id].(status := status)] else g, None)
  }

  /** Without member `id`, and without the edges to it. */
  function Unlinked(g: Graph, id: Id): Graph {
    map x | x in g && x != id :: if g[x].referrer == Some(id) then g[x].(referrer := None) else g[x]
  }

  /** Follows referrers up from `r` with a set of visited ids; ends on any finite graph. */
  method ChainLoops(h: Graph, r: Id, m: Id) returns (loops: bool)
    requires r in h
    ensures loops <==> Above(h, r, m) || ChainRepeats(h, r)
  {
    var visited := {r};
    var cursor := Some(r);
    ghost var k: nat := 0;
    assert Walked(h, r, m, visited, 0) by { FirstWalked(h, r, m); }
    while cursor.Some? && h[cursor.value].referrer.Some?
      invariant Walked(h, r, m, visited, k)
      invariant match cursor case Some(c) => c in h && Up(h, r, k) == cursor case None => Up(h, r, k + 1) == None
      decreases h.Keys - visited, if cursor.Some? then 1 else 0
    {
      hide Walked, Above, ChainRepeats;
      var next := h[cursor.value].referrer.value;
      assert Up(h, r, k + 1) == Some(next);
      if next == m || next in visited {
        WalkLoops(h, r, m, visited, k, next);
        return true;
      }
      WalkOn(h, r, m, visited, k, next);
      ghost var left := h.Keys - visited;
      visited := visited + {next};
      cursor := if next in h then Some(next) else None;
      k := k + 1;
      assert next in h ==> next in left && next !in h.Keys - visited;
    }
    WalkEnd(h, r, m, visited, k);
    return false;
  }

  class MemberTable {
    var members: Graph

    method AssertReferrerValid(referrer: Option<Id>, memberId: Id, org: nat) returns (error: Option<GraphError>)
      ensures error == ReferrerError(members, referrer, memberId, org)
    {
      if referrer.None? { return None; }
      var r := referrer.value;
      if r == memberId { return Some(SelfReferral); }
      var h := Within(members, org);
      if r !in h { return Some(ReferrerNotFound); }
      if Blocked(h[r].status) { return Some(ReferrerBlocked); }
      var loops := ChainLoops(h, r, memberId);
      return if loops then Some(Loop) else None;
    }

    method Register(id: Id, org: nat, referrer: Option<Id>) returns (error: Option<GraphError>)
      requires id !in members
      modifies this
      ensures (members, error) == Apply(old(members), Op.Register(id, org, referrer))
    {
      if referrer.Some? {
        var found := Within(members, org);
        if referrer.value !in found || Blocked(found[referrer.value].status) { return Some(ReferrerNotFound); }
      }
      members := members[id := Node(org, referrer, DRAFT)];
      return None;
    }

    method Update(id: Id, org: nat, owned: bool, patch: Patch) returns (error: Option<GraphError>)
      modifies this
      ensures (members, error) == Apply(old(members), Op.Update(id, org, owned, patch))
    {
      if id !in members || members[id].org != org || !owned { return Some(NotFound); }
      if !Editable(members[id].status) { return Some(NotEditable); }
      var referrer := if patch.Set? then Some(patch.referrer) else None;
      error := AssertReferrerValid(referrer, id, org);
      if error.Some? { return; }
      if !patch.Keep? {
        members := members[id := members[id].(referrer := referrer)];
      }
    }

    method Remove(id: Id, org: nat, owned: bool) returns (error: Option<GraphError>)
      modifies this
      ensures (members, error) == Apply(old(members), Op.Remove(id, org, owned))
    {
      if id !in members || members[id].org != org || !owned { return Some(NotFound); }
      if members[id].status != DRAFT { return Some(NotDraft); }
      members := map x | x in members ::
        if members[x].referrer == Some(id) then members[x].(referrer := None) else members[x];
      members := members - {id};
      assert members == Unlinked(old(members), id);
      return None;
    }
  }

  // ---- Theorems ----

  lemma {:induction false} WithinSameChains(g: Graph, x: Id, k: nat)
    requires Linked(g) && x in g
    ensures Up(Within(g, g[x].org), x, k) == Up(g, x, k)
  {
    StaysInside(g, x, k);
    if k > 0 {
      WithinSameChains(g, x, k - 1);
      StaysInside(g, x, k - 1);
    }
  }

  /** In a forest no chain meets a member twice. */
  lemma NoRepeat(g: Graph, x: Id, i: nat, k: nat)
    requires Forest(g) && x in g && i < k && Up(g, x, k).Some?
    ensures Up(g, x, i) != Up(g, x, k)
  {
    if Up(g, x, i) == Up(g, x, k) {
      StaysInside(g, x, i);
      UpAdd(g, x, Up(g, x, i).value, i, k - i);
    }
  }

  /**
    On a forest, among members of one organisation, the check says "loop" exactly when the new edge
    would close a cycle.
   */
  lemma LoopExactly(g: Graph, m: Id, r: Id)
    requires Forest(g) && m in g && r in g && r != m && g[m].org == g[r].org && !Blocked(g[r].status)
    ensures ReferrerError(g, Some(r), m, g[m].org) == Some(Loop)
       <==> !Acyclic(g[m := g[m].(referrer := Some(r))])
    ensures ReferrerError(g, Some(r), m, g[m].org) in {None, Some(Loop)}
  {
    var h := Within(g, g[m].org);
    forall k: nat
      ensures Up(h, r, k) == Up(g, r, k)
    {
      WithinSameChains(g, r, k);
    }
    forall i: nat, k: nat | i < k && Up(g, r, k).Some?
      ensures Up(g, r, i) != Up(g, r, k)
    {
      NoRepeat(g, r, i, k);
    }
    assert !ChainRepeats(h, r);
    assert Above(h, r, m) <==> AtOrAbove(g, r, m) by {
      if k: nat :| Up(g, r, k) == Some(m) {
        assert k > 0 by { assert Up(g, r, 0) == Some(r); }
        assert Up(h, r, k) == Some(m);
      }
      if k: nat :| k > 0 && Up(h, r, k) == Some(m) { assert Up(g, r, k) == Some(m); }
    }
    assert ReferrerError(g, Some(r), m, g[m].org) == if Above(h, r, m) then Some(Loop) else None;
    CycleExactly(g, m, r);
  }

  lemma ApplyKeepsForest(g: Graph, op: Op)
    requires Forest(g)
    ensures Forest(Apply(g, op).0)
  {
    var g' := Apply(g, op).0;
    match op
    case Register(id, org, referrer) =>
      if g' != g { FreshMember(g, id, g'[id]); }
    case Update(id, org, owned, patch) =>
      if g' != g {
        if patch.Set? {
          LoopExactly(g, id, patch.referrer);
        } else {
          FewerEdges(g, g');
        }
      }
    case Remove(id, org, owned) =>
      FewerEdges(g, g');
    case ChangeStatus(id, status) =>
      FewerEdges(g, g');
  }

  ghost function Run(g: Graph, ops: seq<Op>): Graph {
    if ops == [] then g else Apply(Run(g, ops[..|ops| - 1]), ops[|ops| - 1]).0
  }

  /** Every run from a forest, such as the empty table, stays a same-organisation forest. */
  lemma {:induction false} AlwaysForest(g: Graph, ops: seq<Op>)
    requires Forest(g)
    ensures Forest(Run(g, ops))
  {
    if ops != [] {
      AlwaysForest(g, ops[..|ops| - 1]);
      ApplyKeepsForest(Run(g, ops[..|ops| - 1]), ops[|ops| - 1]);
    }
  }

  // ---- The downline tree ----

  datatype Tree = Tree(id: Id, children: seq<Tree>)

  const MAX_NETWORK_DEPTH: nat := 5

  /** The members referred by `x`, oldest first; `order` lists the table by creation time. */
  function Children(g: Graph, order: seq<Id>, x: Id): seq<Id> {
    if order == [] then []
    else
      var rest := Children(g, order[1..], x);
      if order[0] in g && g[order[0]].referrer == Some(x) then [order[0]] + rest else rest
  }

  function BuildNetworkNode(g: Graph, order: seq<Id>, x: Id, depth: nat): Tree
    requires depth <= MAX_NETWORK_DEPTH
    decreases MAX_NETWORK_DEPTH - depth, 0
  {
    if depth == MAX_NETWORK_DEPTH then Tree(x, [])
    else Tree(x, BuildAll(g, order, Children(g, order, x), depth + 1))
  }

  function BuildAll(g: Graph, order: seq<Id>, ids: seq<Id>, depth: nat): seq<Tree>
    requires depth <= MAX_NETWORK_DEPTH
    decreases MAX_NETWORK_DEPTH - depth, 1, |ids|
  {
    if ids == [] then []
    else [BuildNetworkNode(g, order, ids[0], depth)] + BuildAll(g, order, ids[1..], depth)
  }

  /** How often `y` occurs in a tree. */
  ghost function Count(t: Tree, y: Id): nat {
    (if t.id == y then 1 else 0) + CountAll(t.children, y)
  }

  ghost function CountAll(ts: seq<Tree>, y: Id): nat {
    if ts == [] then 0 else Count(ts[0], y) + CountAll(ts[1..], y)
  }

  ghost function Hit(g: Graph, y: Id, x: Id, k: nat): nat { if Up(g, y, k) == Some(x) then 1 else 0 }

  /** In how many ways `x` is reached from `y` in at most `n` steps up. */
  ghost function Hits(g: Graph, y: Id, x: Id, n: nat): nat {
    Hit(g, y, x, n) + if n == 0 then 0 else Hits(g, y, x, n - 1)
  }

  ghost function HitAll(g: Graph, y: Id, xs: seq<Id>, k: nat): nat {
    if xs == [] then 0 else Hit(g, y, xs[0], k) + HitAll(g, y, xs[1..], k)
  }

  ghost function HitsAll(g: Graph, y: Id, xs: seq<Id>, n: nat): nat {
    if xs == [] then 0 else Hits(g, y, xs[0], n) + HitsAll(g, y, xs[1..], n)
  }

  /** `order` lists every member once. */
  ghost predicate Lists(order: seq<Id>, g: Graph) {
    && (forall x :: x in g <==> x in order)
    && (forall i, j :: 0 <= i < j < |order| ==> order[i] != order[j])
  }

  /** One step further up from the children of `x` is `x`. */
  lemma {:induction false} ChildrenHit(g: Graph, order: seq<Id>, x: Id, y: Id, k: nat)
    requires forall i, j :: 0 <= i < j < |order| ==> order[i] != order[j]
    requires forall z :: z in order ==> z in g
    ensures HitAll(g, y, Children(g, order, x), k)
         == if Up(g, y, k).Some? && Up(g, y, k).value in order && Up(g, y, k + 1) == Some(x) then 1 else 0
  {
    if order != [] {
      var rest := order[1..];
      ChildrenHit(g, rest, x, y, k);
      var cs := Children(g, order, x);
      if cs != [] && cs == [order[0]] + Children(g, rest, x) { assert cs[1..] == Children(g, rest, x); }
    }
  }

  lemma {:induction false} HitsAllSplit(g: Graph, y: Id, xs: seq<Id>, n: nat)
    ensures HitsAll(g, y, xs, n) == HitAll(g, y, xs, n) + if n == 0 then 0 else HitsAll(g, y, xs, n - 1)
  {
    if xs != [] { HitsAllSplit(g, y, xs[1..], n); }
  }

  /** Reaching `x` within `n + 1` steps means being `x` or reaching one of its children within `n`. */
  lemma {:induction false} HitsThroughChildren(g: Graph, order: seq<Id>, x: Id, y: Id, n: nat)
    requires Lists(order, g)
    ensures Hits(g, y, x, n + 1) == (if x == y then 1 else 0) + HitsAll(g, y, Children(g, order, x), n)
  {
    HitsAllSplit(g, y, Children(g, order, x), n);
    ChildrenHit(g, order, x, y, n);
    assert Up(g, y, n + 1) == Some(x) ==> Up(g, y, n).Some? && Up(g, y, n).value in order;
    if n > 0 {
      HitsThroughChildren(g, order, x, y, n - 1);
    } else {
      assert Hits(g, y, x, 0) == if x == y then 1 else 0;
    }
  }

  /** On any graph, the tree shows a member as often as the root lies within the depth limit above it. */
  lemma {:induction false} NetworkCounts(g: Graph, order: seq<Id>, x: Id, depth: nat, y: Id)
    requires Lists(order, g) && depth <= MAX_NETWORK_DEPTH
    ensures Count(BuildNetworkNode(g, order, x, depth), y) == Hits(g, y, x, MAX_NETWORK_DEPTH - depth)
    decreases MAX_NETWORK_DEPTH - depth, 0
  {
    if depth < MAX_NETWORK_DEPTH {
      NetworkCountsAll(g, order, Children(g, order, x), depth + 1, y);
      HitsThroughChildren(g, order, x, y, MAX_NETWORK_DEPTH - depth - 1);
    }
  }

  lemma {:induction false} NetworkCountsAll(g: Graph, order: seq<Id>, xs: seq<Id>, depth: nat, y: Id)
    requires Lists(order, g) && depth <= MAX_NETWORK_DEPTH
    ensures CountAll(BuildAll(g, order, xs, depth), y) == HitsAll(g, y, xs, MAX_NETWORK_DEPTH - depth)
    decreases MAX_NETWORK_DEPTH - depth, 1, |xs|
  {
    if xs != [] {
      NetworkCounts(g, order, xs[0], depth, y);
      NetworkCountsAll(g, order, xs[1..], depth, y);
    }
  }

  /** `x` lies at most `n` steps above `y`. */
  ghost predicate Near(g: Graph, y: Id, x: Id, n: nat) { exists k: nat :: k <= n && Up(g, y, k) == Some(x) }

  lemma NearNext(g: Graph, y: Id, x: Id, n: nat)
    ensures Near(g, y, x, 0) <==> Up(g, y, 0) == Some(x)
    ensures n > 0 ==> (Near(g, y, x, n) <==> Near(g, y, x, n - 1) || Up(g, y, n) == Some(x))
  {
    hide Up;
    if Up(g, y, 0) == Some(x) { assert 0 <= 0 && Up(g, y, 0) == Some(x); }
    if n > 0 && Near(g, y, x, n - 1) {
      var k: nat :| k <= n - 1 && Up(g, y, k) == Some(x);
      assert k <= n && Up(g, y, k) == Some(x);
    }
  }

  lemma {:induction false} HitsOnForest(g: Graph, y: Id, x: Id, n: nat)
    requires Forest(g) && y in g
    ensures Hits(g, y, x, n) == if Near(g, y, x, n) then 1 else 0
  {
    NearNext(g, y, x, n);
    if n > 0 {
      HitsOnForest(g, y, x, n - 1);
      if Near(g, y, x, n - 1) && Up(g, y, n) == Some(x) {
        var k: nat :| k <= n - 1 && Up(g, y, k) == Some(x);
        NoRepeat(g, y, k, n);
      }
    }
    hide Up, Near, Forest;
  }

  /** Every tree node hangs below its own referrer. */
  ghost predicate UnderReferrer(g: Graph, t: Tree) {
    forall c :: c in t.children ==> c.id in g && g[c.id].referrer == Some(t.id) && UnderReferrer(g, c)
  }

  lemma {:induction false} ChildrenReferred(g: Graph, order: seq<Id>, x: Id)
    ensures forall c :: c in Children(g, order, x) ==> c in g && g[c].referrer == Some(x)
  {
    if order != [] { ChildrenReferred(g, order[1..], x); }
  }

  lemma {:induction false} NetworkUnderReferrer(g: Graph, order: seq<Id>, x: Id, depth: nat)
    requires depth <= MAX_NETWORK_DEPTH
    ensures UnderReferrer(g, BuildNetworkNode(g, order, x, depth))
    decreases MAX_NETWORK_DEPTH - depth, 0
  {
    if depth < MAX_NETWORK_DEPTH {
      ChildrenReferred(g, order, x);
      AllUnderReferrer(g, order, x, Children(g, order, x), depth + 1);
    }
  }

  lemma {:induction false} AllUnderReferrer(g: Graph, order: seq<Id>, x: Id, xs: seq<Id>, depth: nat)
    requires depth <= MAX_NETWORK_DEPTH
    requires forall c :: c in xs ==> c in g && g[c].referrer == Some(x)
    ensures forall t :: t in BuildAll(g, order, xs, depth) ==>
      t.id in g && g[t.id].referrer == Some(x) && UnderReferrer(g, t)
    decreases MAX_NETWORK_DEPTH - depth, 1, |xs|
  {
    if xs != [] {
      NetworkUnderReferrer(g, order, xs[0], depth);
      AllUnderReferrer(g, order, x, xs[1..], depth);
    }
  }

  /** On a forest the tree holds exactly the members within five referral edges, each once, under its own referrer. */
  lemma NetworkExactly(g: Graph, order: seq<Id>, root: Id, y: Id)
    requires Forest(g) && Lists(order, g) && root in g && y in g
    ensures var t := BuildNetworkNode(g, order, root, 0);
      && t.id == root && UnderReferrer(g, t)
      && Count(t, y) == if Near(g, y, root, 5) then 1 else 0
  {
    hide BuildNetworkNode, Count, Near, Hits, Forest, UnderReferrer;
    NetworkUnderReferrer(g, order, root, 0);
    NetworkCounts(g, order, root, 0, y);
    HitsOnForest(g, y, root, MAX_NETWORK_DEPTH);
    RootId(g, order, root);
  }

  lemma RootId(g: Graph, order: seq<Id>, root: Id)
    ensures BuildNetworkNode(g, order, root, 0).id == root
  {
  }
}
