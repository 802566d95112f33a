/** The walk from an agent to the root of its organisation, over objects read from the chain. */
module Ancestors {
  import opened Base

  /** A chain object. A field that cannot be normalised, or is absent, makes the comparison fail either way. */
  datatype Object = Object(
    pkg: string, mod: string, name: string,
    active: bool,
    accountId: string, organizationId: string, owner: string,
    expiresAt: Option<int>,
    parent: Option<string>)

  datatype Envelope = Envelope(packageId: string, accountId: string, organizationId: string, owner: string)

  /** `normalizeKeyAddress`; None when it throws. */
  type Normalizer = string -> Option<string>

  type Graph = map<string, Object>

  const MAX_ANCESTORS := 8

  /** An absent parent, and the empty text, end the walk. */
  predicate IsRoot(parent: Option<string>) {
    parent.None? || parent.value == ""
  }

  /** Active, unexpired, and of the envelope's package, account, organisation and owner. */
  predicate Matches(norm: Normalizer, e: Envelope, now: int, o: Object) {
    && norm(o.pkg) == Some(e.packageId) && o.mod == "memory" && o.name == "SubAgent"
    && o.active
    && norm(o.accountId) == Some(e.accountId)
    && norm(o.organizationId) == Some(e.organizationId)
    && norm(o.owner) == Some(e.owner)
    && !(o.expiresAt.Some? && o.expiresAt.value < now)
  }

  // ------------------------------------------------------------- what is to be decided

  /** The ancestors lead from the parent reference, link by link, to a root, and all of them match. */
  predicate LeadsToRoot(graph: Graph, norm: Normalizer, e: Envelope, now: int, parent: Option<string>, chain: seq<string>)
    decreases |chain|
  {
    if chain == [] then IsRoot(parent)
    else
      && !IsRoot(parent)
      && norm(parent.value) == Some(chain[0])
      && chain[0] in graph
      && Matches(norm, e, now, graph[chain[0]])
      && LeadsToRoot(graph, norm, e, now, graph[chain[0]].parent, chain[1..])
  }

  ghost predicate Distinct(s: seq<string>) {
    forall i, j :: 0 <= i < j < |s| ==> s[i] != s[j]
  }

  /** The walk may go on from here: together with the ancestors already seen, the rest is a short chain. */
  ghost predicate Completes(graph: Graph, norm: Normalizer, e: Envelope, now: int, parent: Option<string>,
                            seen: seq<string>, rest: seq<string>) {
    LeadsToRoot(graph, norm, e, now, parent, rest) && Distinct(seen + rest) && |seen + rest| <= 8
  }

  ghost predicate Acceptable(graph: Graph, norm: Normalizer, e: Envelope, now: int, parent: Option<string>, seen: seq<string>) {
    exists rest :: Completes(graph, norm, e, now, parent, seen, rest)
  }

  // ------------------------------------------------------------------------ the walk

  /** Accepts exactly when the parent chain reaches a root after at most eight distinct ancestors that
      all match, within nine rounds, on every finite object graph, cyclic ones included. */
  method VerifyAncestors(graph: Graph, norm: Normalizer, e: Envelope, now: int, first: Option<string>)
    returns (ok: bool, rounds: nat)
    ensures ok <==> Acceptable(graph, norm, e, now, first, [])
    ensures rounds <= 9
  {
    var parent := first;
    var visited: set<string> := {};
    rounds := 0;
    ghost var seen: seq<string> := [];
    while !IsRoot(parent)
      invariant Distinct(seen) && |seen| == |visited| == rounds <= MAX_ANCESTORS
      invariant forall id :: id in visited <==> id in seen
      invariant Acceptable(graph, norm, e, now, first, []) <==> Acceptable(graph, norm, e, now, parent, seen)
      decreases MAX_ANCESTORS - rounds
    {
      rounds := rounds + 1;
      var id := norm(parent.value);
      if id.None? || id.value in visited || |visited| >= MAX_ANCESTORS || id.value !in graph
         || !Matches(norm, e, now, graph[id.value]) {
        Stuck(graph, norm, e, now, parent, seen);
        return false, rounds;
      }
      OneMore(graph, norm, e, now, parent, seen);
      visited := visited + {id.value};
      seen := seen + [id.value];
      parent := graph[id.value].parent;
    }
    assert seen + [] == seen;
    assert Completes(graph, norm, e, now, parent, seen, []);
    return true, rounds;
  }

  /** None of the failing checks leaves a way to complete the chain. */
  lemma Stuck(graph: Graph, norm: Normalizer, e: Envelope, now: int, parent: Option<string>, seen: seq<string>)
    requires !IsRoot(parent)
    requires var id := norm(parent.value);
      id.None? || id.value in seen || |seen| >= MAX_ANCESTORS || id.value !in graph
      || !Matches(norm, e, now, graph[id.value])
    ensures !Acceptable(graph, norm, e, now, parent, seen)
  {
    forall rest ensures !Completes(graph, norm, e, now, parent, seen, rest) {
      if LeadsToRoot(graph, norm, e, now, parent, rest) {
        assert rest != [];
        assert (seen + rest)[|seen|] == rest[0];
        if rest[0] in seen {
          var i :| 0 <= i < |seen| && seen[i] == rest[0];
          assert (seen + rest)[i] == (seen + rest)[|seen|];
        }
      }
    }
  }

  /** Taking one step along the chain changes nothing about its acceptability. */
  lemma OneMore(graph: Graph, norm: Normalizer, e: Envelope, now: int, parent: Option<string>, seen: seq<string>)
    requires !IsRoot(parent) && norm(parent.value).Some?
    requires var id := norm(parent.value).value; id in graph && Matches(norm, e, now, graph[id])
    ensures var id := norm(parent.value).value;
      Acceptable(graph, norm, e, now, parent, seen) <==> Acceptable(graph, norm, e, now, graph[id].parent, seen + [id])
  {
    var id := norm(parent.value).value;
    if Acceptable(graph, norm, e, now, parent, seen) {
      var rest :| Completes(graph, norm, e, now, parent, seen, rest);
      assert seen + rest == seen + [id] + rest[1..];
      assert Completes(graph, norm, e, now, graph[id].parent, seen + [id], rest[1..]);
    }
    if Acceptable(graph, norm, e, now, graph[id].parent, seen + [id]) {
      var rest :| Completes(graph, norm, e, now, graph[id].parent, seen + [id], rest);
      assert seen + ([id] + rest) == seen + [id] + rest && ([id] + rest)[1..] == rest;
      assert Completes(graph, norm, e, now, parent, seen, [id] + rest);
    }
  }

  // ----------------------------------------------------------------- consequences

  /** A set of objects that refer only to each other. */
  ghost predicate ClosedWithoutRoot(graph: Graph, norm: Normalizer, ids: set<string>) {
    forall id :: id in ids && id in graph ==>
      !IsRoot(graph[id].parent) && (norm(graph[id].parent.value).Some? ==> norm(graph[id].parent.value).value in ids)
  }

  /** A cycle is never accepted, however long it is and wherever the walk enters it. */
  lemma {:induction false} CycleRejected(graph: Graph, norm: Normalizer, e: Envelope, now: int,
                                         parent: Option<string>, ids: set<string>, chain: seq<string>)
    requires ClosedWithoutRoot(graph, norm, ids)
    requires !IsRoot(parent) && (norm(parent.value).Some? ==> norm(parent.value).value in ids)
    ensures !LeadsToRoot(graph, norm, e, now, parent, chain)
    decreases |chain|
  {
    if chain != [] && norm(parent.value) == Some(chain[0]) && chain[0] in graph {
      CycleRejected(graph, norm, e, now, graph[chain[0]].parent, ids, chain[1..]);
    }
  }

  /** An ancestor that passes, spelled out: it exists, is active and not past its expiry, belongs to the envelope's
      package, account, organisation and owner, and refers to the next one, or to none if it is the last. */
  ghost predicate Checked(graph: Graph, norm: Normalizer, e: Envelope, now: int, chain: seq<string>, i: nat)
    requires i < |chain|
  {
    && chain[i] in graph
    && var o := graph[chain[i]];
    && o.active && (o.expiresAt.Some? ==> now <= o.expiresAt.value)
    && norm(o.pkg) == Some(e.packageId) && o.mod == "memory" && o.name == "SubAgent"
    && norm(o.accountId) == Some(e.accountId) && norm(o.organizationId) == Some(e.organizationId)
    && norm(o.owner) == Some(e.owner)
    && (if i == |chain| - 1 then o.parent.None? || o.parent.value == ""
        else o.parent.Some? && o.parent.value != "" && norm(o.parent.value) == Some(chain[i + 1]))
  }

  /** The chain to a root is accepted exactly when the first reference leads to it and every ancestor passes. */
  lemma {:induction false} EveryAncestorChecked(graph: Graph, norm: Normalizer, e: Envelope, now: int,
                                                parent: Option<string>, chain: seq<string>)
    ensures LeadsToRoot(graph, norm, e, now, parent, chain) <==>
      && (if chain == [] then parent.None? || parent.value == ""
          else parent.Some? && parent.value != "" && norm(parent.value) == Some(chain[0]))
      && forall i: nat :: i < |chain| ==> Checked(graph, norm, e, now, chain, i)
    decreases |chain|
  {
    if chain != [] {
      if chain[0] in graph {
        EveryAncestorChecked(graph, norm, e, now, graph[chain[0]].parent, chain[1..]);
        forall i: nat | i < |chain[1..]|
          ensures Checked(graph, norm, e, now, chain[1..], i) <==> Checked(graph, norm, e, now, chain, i + 1)
        {
        }
        FromTail(graph, norm, e, now, chain);
      } else {
        assert !Checked(graph, norm, e, now, chain, 0);
      }
    }
  }

  lemma FromTail(graph: Graph, norm: Normalizer, e: Envelope, now: int, chain: seq<string>)
    requires chain != []
    ensures (forall i: nat :: i < |chain| ==> Checked(graph, norm, e, now, chain, i)) <==>
      && Checked(graph, norm, e, now, chain, 0)
      && forall i: nat :: i < |chain[1..]| ==> Checked(graph, norm, e, now, chain[1..], i)
  {
    forall i: nat | i < |chain[1..]|
      ensures Checked(graph, norm, e, now, chain[1..], i) <==> Checked(graph, norm, e, now, chain, i + 1)
    {
    }
    if Checked(graph, norm, e, now, chain, 0)
       && forall i: nat :: i < |chain[1..]| ==> Checked(graph, norm, e, now, chain[1..], i) {
      forall i: nat | i < |chain| ensures Checked(graph, norm, e, now, chain, i) {
        if i > 0 {
          assert Checked(graph, norm, e, now, chain[1..], i - 1);
        }
      }
    }
    if forall i: nat :: i < |chain| ==> Checked(graph, norm, e, now, chain, i) {
      forall i: nat | i < |chain[1..]| ensures Checked(graph, norm, e, now, chain[1..], i) {
        assert Checked(graph, norm, e, now, chain, i + 1);
      }
    }
  }

  /** There is at most one chain to a root, so the verdict does not depend on which is found. */
  lemma {:induction false} ChainUnique(graph: Graph, norm: Normalizer, e: Envelope, now: int,
                                       parent: Option<string>, a: seq<string>, b: seq<string>)
    requires LeadsToRoot(graph, norm, e, now, parent, a) && LeadsToRoot(graph, norm, e, now, parent, b)
    ensures a == b
    decreases |a|
  {
    if a != [] {
      ChainUnique(graph, norm, e, now, graph[a[0]].parent, a[1..], b[1..]);
      assert a == [a[0]] + a[1..] && b == [b[0]] + b[1..];
    }
  }
}
