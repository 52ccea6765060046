/** Which accounting roots one reading covers. `canon` is the canonical spelling of a directory. */
module AccountingRoots {
  import opened Basics

  type Canon = string -> string

  datatype Covered = Covered(root: string, rheis: seq<string>, shared: bool)

  datatype Found = Found(root: string, rheis: seq<string>)

  type Scope = Option<set<string>>

  predicate Rooted(canon: Canon, rootOf: map<string, string>, id: string, key: string) {
    id in rootOf && canon(rootOf[id]) == key
  }

  predicate Chosen(scope: Scope, id: string) { scope.None? || id in scope.value }

  /** The in-scope rheis of a root, in order. */
  function RheisAt(canon: Canon, rootOf: map<string, string>, scope: Scope, ids: seq<string>, key: string): seq<string> {
    if ids == [] then []
    else
      var id := ids[|ids| - 1];
      RheisAt(canon, rootOf, scope, ids[..|ids| - 1], key)
      + if Chosen(scope, id) && Rooted(canon, rootOf, id, key) then [id] else []
  }

  function OwnersAt(canon: Canon, rootOf: map<string, string>, ids: seq<string>, key: string): nat {
    if ids == [] then 0
    else
      OwnersAt(canon, rootOf, ids[..|ids| - 1], key) + if Rooted(canon, rootOf, ids[|ids| - 1], key) then 1 else 0
  }

  /** Somebody outside the scope roots there. */
  predicate SharedWithOthers(canon: Canon, rootOf: map<string, string>, scope: Scope, ids: seq<string>, key: string) {
    exists j | 0 <= j < |ids| :: Rooted(canon, rootOf, ids[j], key) && !Chosen(scope, ids[j])
  }

  lemma {:induction false} OwnersTell(canon: Canon, rootOf: map<string, string>, scope: Scope, ids: seq<string>, key: string)
    ensures OwnersAt(canon, rootOf, ids, key) >= |RheisAt(canon, rootOf, scope, ids, key)|
    ensures OwnersAt(canon, rootOf, ids, key) > |RheisAt(canon, rootOf, scope, ids, key)| <==>
              SharedWithOthers(canon, rootOf, scope, ids, key)
  {
    if ids != [] {
      hide Rooted, Chosen;
      var before, id := ids[..|ids| - 1], ids[|ids| - 1];
      OwnersTell(canon, rootOf, scope, before, key);
      assert forall j | 0 <= j < |before| :: before[j] == ids[j];
      assert SharedWithOthers(canon, rootOf, scope, ids, key) <==>
             SharedWithOthers(canon, rootOf, scope, before, key)
             || (Rooted(canon, rootOf, id, key) && !Chosen(scope, id)) by {
        assert ids[|before|] == id;
      }
    }
  }

  /** `seen` tells where each root is, so no two found roots are one. */
  predicate Enumerated(canon: Canon, order: seq<Found>, seen: map<string, nat>) {
    && (forall k | 0 <= k < |order| :: canon(order[k].root) in seen && seen[canon(order[k].root)] == k)
    && (forall key | key in seen :: seen[key] < |order| && canon(order[seen[key]].root) == key)
  }

  /** A root, folded into the one that already stands for it. */
  method EnumerateRoot(canon: Canon, order0: seq<Found>, seen0: map<string, nat>, root: string, rhei: Option<string>)
    returns (order: seq<Found>, seen: map<string, nat>)
    requires Enumerated(canon, order0, seen0)
    ensures Enumerated(canon, order, seen)
    ensures |order| == |order0| + if canon(root) in seen0 then 0 else 1
    ensures forall key :: key in seen <==> key in seen0 || key == canon(root)
    ensures forall k | 0 <= k < |order| ::
              && order[k].root == (if k < |order0| then order0[k].root else root)
              && order[k].rheis == (if k < |order0| then order0[k].rheis else [])
                                   + (if rhei.Some? && canon(order[k].root) == canon(root) then [rhei.value] else [])
  {
    order, seen := order0, seen0;
    var key := canon(root);
    if key !in seen {
      order := order + [Found(root, [])];
      seen := seen[key := |order| - 1];
    }
    var index := seen[key];
    assert Enumerated(canon, order, seen);
    if rhei.Some? {
      order := order[index := order[index].(rheis := order[index].rheis + [rhei.value])];
    }
  }

  /** How many rheis root where, in or out of scope. */
  method CountOwners(canon: Canon, ids: seq<string>, rootOf: map<string, string>) returns (owners: map<string, nat>)
    ensures forall key :: (if key in owners then owners[key] else 0) == OwnersAt(canon, rootOf, ids, key)
  {
    owners := map[];
    for i := 0 to |ids|
      invariant forall key :: (if key in owners then owners[key] else 0) == OwnersAt(canon, rootOf, ids[..i], key)
    {
      assert ids[..i + 1][..i] == ids[..i];
      if ids[i] in rootOf {
        var key := canon(rootOf[ids[i]]);
        owners := owners[key := (if key in owners then owners[key] else 0) + 1];
      }
    }
    assert ids[..|ids|] == ids;
  }

  /** The found roots after some rheis: each lists its own, and each rhei in scope has one. */
  predicate Covers(canon: Canon, rootOf: map<string, string>, scope: Scope, ids: seq<string>, runRoot: string,
                   order: seq<Found>, seen: map<string, nat>) {
    && Enumerated(canon, order, seen)
    && (forall k | 0 <= k < |order| ::
          order[k].rheis == RheisAt(canon, rootOf, scope, ids, canon(order[k].root)))
    && (forall k | 0 <= k < |order| :: order[k].rheis != [] || (scope.None? && k == 0))
    && (forall j | 0 <= j < |ids| && Chosen(scope, ids[j]) && ids[j] in rootOf :: canon(rootOf[ids[j]]) in seen)
    && (scope.None? ==> order != [] && order[0].root == runRoot)
  }

  lemma {:induction false} NoRheis(canon: Canon, rootOf: map<string, string>, scope: Scope, ids: seq<string>, key: string)
    requires forall j | 0 <= j < |ids| && Chosen(scope, ids[j]) && ids[j] in rootOf :: canon(rootOf[ids[j]]) != key
    ensures RheisAt(canon, rootOf, scope, ids, key) == []
  {
    if ids != [] {
      NoRheis(canon, rootOf, scope, ids[..|ids| - 1], key);
    }
  }

  /** The roots in reading order. */
  method FindRoots(canon: Canon, ids: seq<string>, rootOf: map<string, string>, runRoot: string, scope: Scope)
    returns (order: seq<Found>, seen: map<string, nat>)
    ensures Covers(canon, rootOf, scope, ids, runRoot, order, seen)
  {
    hide RheisAt, Rooted, Covers, Enumerated;
    NothingCovers(canon, rootOf, scope, runRoot);
    order := [];
    var index: map<string, nat> := map[];
    if scope.None? {
      order, index := EnumerateRoot(canon, order, index, runRoot, None);
      RunRootCovers(canon, rootOf, scope, runRoot, order, index);
    }
    assert ids[..0] == [];
    for i := 0 to |ids|
      invariant Covers(canon, rootOf, scope, ids[..i], runRoot, order, index)
    {
      ghost var order0, index0 := order, index;
      CoversIsEnumerated(canon, rootOf, scope, ids[..i], runRoot, order, index);
      if Chosen(scope, ids[i]) && ids[i] in rootOf {
        order, index := EnumerateRoot(canon, order, index, rootOf[ids[i]], Some(ids[i]));
        NextCovers(canon, rootOf, scope, ids, i, runRoot, order0, index0, order, index);
      } else {
        SkipCovers(canon, rootOf, scope, ids, i, runRoot, order, index);
      }
    }
    assert ids[..|ids|] == ids;
    seen := index;
  }

  /** `accounting_roots`: the run root first when the reading is project-wide, then the root of each rhei
      in scope; no directory twice, each listing exactly its rheis in scope, and `shared` exactly if a
      rhei outside the scope roots there. */
  method AccountingRoots(canon: Canon, ids: seq<string>, rootOf: map<string, string>, runRoot: string, scope: Scope)
    returns (roots: seq<Covered>)
    ensures forall k, l | 0 <= k < l < |roots| :: canon(roots[k].root) != canon(roots[l].root)
    ensures forall k | 0 <= k < |roots| ::
              && roots[k].rheis == RheisAt(canon, rootOf, scope, ids, canon(roots[k].root))
              && (roots[k].rheis != [] || (scope.None? && k == 0))
              && (roots[k].shared <==> SharedWithOthers(canon, rootOf, scope, ids, canon(roots[k].root)))
    ensures forall j | 0 <= j < |ids| && Chosen(scope, ids[j]) && ids[j] in rootOf ::
              exists k | 0 <= k < |roots| :: canon(roots[k].root) == canon(rootOf[ids[j]])
    ensures scope.None? ==> roots != [] && roots[0].root == runRoot
  {
    hide RheisAt, SharedWithOthers, Rooted, Covers, OwnersAt;
    var owners := CountOwners(canon, ids, rootOf);
    var order, seen := FindRoots(canon, ids, rootOf, runRoot, scope);
    CoversMeans(canon, rootOf, scope, ids, runRoot, order, seen);
    roots := seq(|order|, k requires 0 <= k < |order| =>
      var key := canon(order[k].root);
      Covered(order[k].root, order[k].rheis, (if key in owners then owners[key] else 0) > |order[k].rheis|));
    assert forall k | 0 <= k < |roots| :: roots[k].root == order[k].root && roots[k].rheis == order[k].rheis;
    forall k | 0 <= k < |roots|
      ensures roots[k].shared <==> SharedWithOthers(canon, rootOf, scope, ids, canon(roots[k].root))
    {
      OwnersTell(canon, rootOf, scope, ids, canon(order[k].root));
    }
    forall j | 0 <= j < |ids| && Chosen(scope, ids[j]) && ids[j] in rootOf
      ensures exists k | 0 <= k < |roots| :: canon(roots[k].root) == canon(rootOf[ids[j]])
    {
      var k :| 0 <= k < |order| && canon(order[k].root) == canon(rootOf[ids[j]]);
      assert roots[k].root == order[k].root;
    }
  }

  lemma CoversMeans(canon: Canon, rootOf: map<string, string>, scope: Scope, ids: seq<string>, runRoot: string,
                    order: seq<Found>, seen: map<string, nat>)
    requires Covers(canon, rootOf, scope, ids, runRoot, order, seen)
    ensures forall k, l | 0 <= k < l < |order| :: canon(order[k].root) != canon(order[l].root)
    ensures forall k | 0 <= k < |order| ::
              && order[k].rheis == RheisAt(canon, rootOf, scope, ids, canon(order[k].root))
              && (order[k].rheis != [] || (scope.None? && k == 0))
    ensures forall j | 0 <= j < |ids| && Chosen(scope, ids[j]) && ids[j] in rootOf ::
              exists k | 0 <= k < |order| :: canon(order[k].root) == canon(rootOf[ids[j]])
    ensures scope.None? ==> order != [] && order[0].root == runRoot
  {
    hide RheisAt, Chosen;
    forall j | 0 <= j < |ids| && Chosen(scope, ids[j]) && ids[j] in rootOf
      ensures exists k | 0 <= k < |order| :: canon(order[k].root) == canon(rootOf[ids[j]])
    {
      assert canon(order[seen[canon(rootOf[ids[j]])]].root) == canon(rootOf[ids[j]]);
    }
  }

  lemma CoversIsEnumerated(canon: Canon, rootOf: map<string, string>, scope: Scope, ids: seq<string>, runRoot: string,
                           order: seq<Found>, seen: map<string, nat>)
    requires Covers(canon, rootOf, scope, ids, runRoot, order, seen)
    ensures Enumerated(canon, order, seen)
  {}

  lemma NothingCovers(canon: Canon, rootOf: map<string, string>, scope: Scope, runRoot: string)
    ensures Enumerated(canon, [], map[])
    ensures scope.Some? ==> Covers(canon, rootOf, scope, [], runRoot, [], map[])
  {}

  lemma RunRootCovers(canon: Canon, rootOf: map<string, string>, scope: Scope, runRoot: string,
                      order: seq<Found>, seen: map<string, nat>)
    requires scope.None? && order == [Found(runRoot, [])] && Enumerated(canon, order, seen)
    ensures Covers(canon, rootOf, scope, [], runRoot, order, seen)
  {}

  lemma NextRheis(canon: Canon, rootOf: map<string, string>, scope: Scope, ids: seq<string>, i: nat, key: string)
    requires i < |ids|
    ensures RheisAt(canon, rootOf, scope, ids[..i + 1], key)
            == RheisAt(canon, rootOf, scope, ids[..i], key)
               + if Chosen(scope, ids[i]) && Rooted(canon, rootOf, ids[i], key) then [ids[i]] else []
  {
    assert ids[..i + 1][..i] == ids[..i];
  }

  lemma SkipCovers(canon: Canon, rootOf: map<string, string>, scope: Scope, ids: seq<string>, i: nat, runRoot: string,
                   order: seq<Found>, seen: map<string, nat>)
    requires i < |ids| && !(Chosen(scope, ids[i]) && ids[i] in rootOf)
    requires Covers(canon, rootOf, scope, ids[..i], runRoot, order, seen)
    ensures Covers(canon, rootOf, scope, ids[..i + 1], runRoot, order, seen)
  {
    hide RheisAt, Chosen, Enumerated;
    forall k | 0 <= k < |order|
      ensures order[k].rheis == RheisAt(canon, rootOf, scope, ids[..i + 1], canon(order[k].root))
    {
      NextRheis(canon, rootOf, scope, ids, i, canon(order[k].root));
    }
  }

  lemma NextCovers(canon: Canon, rootOf: map<string, string>, scope: Scope, ids: seq<string>, i: nat, runRoot: string,
                   order0: seq<Found>, seen0: map<string, nat>, order: seq<Found>, seen: map<string, nat>)
    requires i < |ids| && Chosen(scope, ids[i]) && ids[i] in rootOf
    requires Covers(canon, rootOf, scope, ids[..i], runRoot, order0, seen0)
    requires Enumerated(canon, order, seen) && |order0| <= |order|
    requires forall key :: key in seen <==> key in seen0 || key == canon(rootOf[ids[i]])
    requires forall k | 0 <= k < |order| ::
               && order[k].root == (if k < |order0| then order0[k].root else rootOf[ids[i]])
               && order[k].rheis == (if k < |order0| then order0[k].rheis else [])
                                    + (if canon(order[k].root) == canon(rootOf[ids[i]]) then [ids[i]] else [])
    ensures Covers(canon, rootOf, scope, ids[..i + 1], runRoot, order, seen)
  {
    hide RheisAt, Chosen, Enumerated;
    assert forall j | 0 <= j < i :: ids[..i + 1][j] == ids[..i][j];
    forall k | 0 <= k < |order|
      ensures order[k].rheis == RheisAt(canon, rootOf, scope, ids[..i + 1], canon(order[k].root))
      ensures order[k].rheis != [] || (scope.None? && k == 0)
    {
      var key := canon(order[k].root);
      NextRheis(canon, rootOf, scope, ids, i, key);
      if k >= |order0| {
        NewKey(canon, order0, seen0, order, seen, k);
        assert forall j | 0 <= j < i :: ids[..i][j] == ids[j];
        NoRheis(canon, rootOf, scope, ids[..i], key);
      }
    }
  }

  /** A root added to those found has a key none of them has. */
  lemma NewKey(canon: Canon, order0: seq<Found>, seen0: map<string, nat>, order: seq<Found>, seen: map<string, nat>, k: nat)
    requires Enumerated(canon, order0, seen0) && Enumerated(canon, order, seen)
    requires |order0| <= k < |order|
    requires forall l | 0 <= l < |order0| :: order[l].root == order0[l].root
    ensures canon(order[k].root) !in seen0
  {
    forall key | key in seen0 ensures key != canon(order[k].root) {
      assert canon(order[seen0[key]].root) == key;
    }
  }
}
