// Turning ranked index hits into search results (vfs crate, davfs.rs): stale hits are
// dropped, a scope filters by path prefix, and at most `limit` results are given.
module Searches {
  import opened Base
  import opened Paths
  import opened MetaTables
  import opened Namespace
  import opened MetaStores

  /** The size of the candidate pool of a scoped query. */
  const MAX_SEARCH_FETCH: nat := 1000

  /** One turn of the result loop: what a hit adds to the results so far. */
  function Considered(nodes: Nodes, results: seq<seq<byte>>, hit: nat, prefix: Option<seq<byte>>, limit: nat):
      Outcome<seq<seq<byte>>>
  {
    if |results| >= limit then Ok(results)
    else match Rendered(WalkUp(nodes, hit, WALK_LIMIT))
      case Err(e) => Err(e)
      case Ok(None) => Ok(results)
      case Ok(Some(path)) =>
        if prefix.Some? && !IsWithin(path, prefix.value) then Ok(results) else Ok(results + [path])
  }

  /** The whole loop over the hits. */
  function Answer(nodes: Nodes, hits: seq<nat>, prefix: Option<seq<byte>>, limit: nat): Outcome<seq<seq<byte>>> {
    if hits == [] then Ok([])
    else match Answer(nodes, Init(hits), prefix, limit)
      case Err(e) => Err(e)
      case Ok(results) => Considered(nodes, results, Last(hits), prefix, limit)
  }

  /** A hit that should be reported: it is alive and, unless the scope is the root, lies
      strictly inside the scope. */
  ghost predicate Relevant(nodes: Nodes, scope: nat, hit: nat) {
    hit in nodes && (scope == ROOT_ID || ProperAncestor(nodes, scope, hit))
  }

  /** The current paths of the relevant hits, in the order of the hits. */
  ghost function RelevantPaths(nodes: Nodes, scope: nat, hits: seq<nat>): seq<seq<byte>>
    requires TreeOk(nodes)
  {
    if hits == [] then []
    else RelevantPaths(nodes, scope, Init(hits)) +
         if Relevant(nodes, scope, Last(hits)) then [PathBytes(PathOf(nodes, Last(hits)))] else []
  }

  /** How the scope is rendered: no prefix for the root. */
  ghost function ScopePrefix(nodes: Nodes, scope: nat): Option<seq<byte>>
    requires TreeOk(nodes) && scope in nodes
  {
    if scope == ROOT_ID then None else Some(PathBytes(PathOf(nodes, scope)))
  }

  ghost predicate Shallow(nodes: Nodes, id: nat)
    requires TreeOk(nodes)
  {
    id in nodes ==> |PathOf(nodes, id)| < WALK_LIMIT
  }

  /** The byte-prefix filter accepts exactly the nodes below the scope. */
  lemma ScopeFilterIsExact(nodes: Nodes, scope: nat, hit: nat)
    requires TreeOk(nodes) && scope in nodes && scope != ROOT_ID && hit in nodes
    ensures IsWithin(PathBytes(PathOf(nodes, hit)), PathBytes(PathOf(nodes, scope))) <==>
            ProperAncestor(nodes, scope, hit)
  {
    var q, p := PathOf(nodes, scope), PathOf(nodes, hit);
    assert LinkOk(nodes, scope);
    PathNamesOk(nodes, q, scope);
    PathNamesOk(nodes, p, hit);
    WithinIsProperPrefix(p, q);
    ProperAncestorIsProperPrefix(nodes, scope, hit, q, p);
  }

  lemma HitConsidered(nodes: Nodes, results: seq<seq<byte>>, scope: nat, hit: nat, limit: nat)
    requires TreeOk(nodes) && scope in nodes && Shallow(nodes, hit) && |results| < limit
    ensures Considered(nodes, results, hit, ScopePrefix(nodes, scope), limit) ==
            Ok(results + if Relevant(nodes, scope, hit) then [PathBytes(PathOf(nodes, hit))] else [])
  {
    WalkUpOnTree(nodes, hit);
    if hit in nodes && scope != ROOT_ID {
      ScopeFilterIsExact(nodes, scope, hit);
    }
    assert results + [] == results;
  }

  lemma AnswerStep(nodes: Nodes, hits: seq<nat>, prefix: Option<seq<byte>>, limit: nat, i: nat, results: seq<seq<byte>>)
    requires i < |hits| && Answer(nodes, hits[..i], prefix, limit) == Ok(results)
    ensures Answer(nodes, hits[..i + 1], prefix, limit) == Considered(nodes, results, hits[i], prefix, limit)
  {
    assert Init(hits[..i + 1]) == hits[..i] && Last(hits[..i + 1]) == hits[i];
  }

  /** Once there are enough results the rest of the hits changes nothing. */
  lemma {:induction false} LimitReached(nodes: Nodes, hits: seq<nat>, prefix: Option<seq<byte>>, limit: nat, i: nat)
    requires i <= |hits| && Answer(nodes, hits[..i], prefix, limit).Ok?
    requires |Answer(nodes, hits[..i], prefix, limit).value| >= limit
    ensures Answer(nodes, hits, prefix, limit) == Answer(nodes, hits[..i], prefix, limit)
    decreases |hits| - i
  {
    if i == |hits| {
      assert hits[..i] == hits;
    } else {
      assert Init(hits[..i + 1]) == hits[..i];
      LimitReached(nodes, hits, prefix, limit, i + 1);
    }
  }

  lemma {:induction false} FailureStays(nodes: Nodes, hits: seq<nat>, prefix: Option<seq<byte>>, limit: nat, i: nat)
    requires i <= |hits| && Answer(nodes, hits[..i], prefix, limit).Err?
    ensures Answer(nodes, hits, prefix, limit) == Answer(nodes, hits[..i], prefix, limit)
    decreases |hits| - i
  {
    if i == |hits| {
      assert hits[..i] == hits;
    } else {
      assert Init(hits[..i + 1]) == hits[..i];
      FailureStays(nodes, hits, prefix, limit, i + 1);
    }
  }

  ghost predicate SomeTooDeep(nodes: Nodes, ids: seq<nat>)
    requires TreeOk(nodes)
  {
    exists i :: 0 <= i < |ids| && !Shallow(nodes, ids[i])
  }

  lemma TooDeepAmong(nodes: Nodes, ids: seq<nat>, i: nat)
    requires TreeOk(nodes) && i < |ids| && !Shallow(nodes, ids[i])
    ensures SomeTooDeep(nodes, ids)
  {
  }

  lemma AllFit<T>(s: seq<T>, limit: nat)
    requires |s| <= limit
    ensures First(s, limit) == s
  {
  }

  /** A search reports exactly the first `limit` relevant hits, in order, by their current
      paths, whatever stale hits the index still holds. */
  lemma {:induction false} AnswerIsExact(nodes: Nodes, hits: seq<nat>, scope: nat, limit: nat)
    requires TreeOk(nodes) && scope in nodes && forall i :: 0 <= i < |hits| ==> Shallow(nodes, hits[i])
    ensures Answer(nodes, hits, ScopePrefix(nodes, scope), limit) == Ok(First(RelevantPaths(nodes, scope, hits), limit))
  {
    if hits != [] {
      AnswerIsExact(nodes, Init(hits), scope, limit);
      var before, hit := RelevantPaths(nodes, scope, Init(hits)), Last(hits);
      assert Shallow(nodes, hit);
      if |before| < limit {
        HitConsidered(nodes, before, scope, hit, limit);
        AllFit(before, limit);
        AllFit(RelevantPaths(nodes, scope, hits), limit);
      } else {
        assert First(RelevantPaths(nodes, scope, hits), limit) == First(before, limit);
      }
    }
  }

  /** Even with nodes too deep to walk, an answer that is given lists nothing irrelevant:
      every path in it is the path of a relevant hit. */
  lemma {:induction false} AnswerIsSound(nodes: Nodes, hits: seq<nat>, scope: nat, limit: nat)
    requires TreeOk(nodes) && scope in nodes
    requires Answer(nodes, hits, ScopePrefix(nodes, scope), limit).Ok?
    ensures var results := Answer(nodes, hits, ScopePrefix(nodes, scope), limit).value;
      && |results| <= limit
      && results == First(RelevantPaths(nodes, scope, hits), limit)
  {
    if hits != [] {
      AnswerIsSound(nodes, Init(hits), scope, limit);
      var before, hit := RelevantPaths(nodes, scope, Init(hits)), Last(hits);
      if |before| < limit {
        WalkUpOnTree(nodes, hit);
        HitConsidered(nodes, before, scope, hit, limit);
      } else {
        assert First(RelevantPaths(nodes, scope, hits), limit) == First(before, limit);
      }
    }
  }

  /** A search that gives no answer met a node beyond the walk limit. */
  lemma {:induction false} AnswerOrTooDeep(nodes: Nodes, hits: seq<nat>, scope: nat, limit: nat)
    requires TreeOk(nodes) && scope in nodes
    ensures match Answer(nodes, hits, ScopePrefix(nodes, scope), limit)
            case Ok(results) => results == First(RelevantPaths(nodes, scope, hits), limit)
            case Err(e) => e == Corrupt && SomeTooDeep(nodes, [scope] + hits)
  {
    if Answer(nodes, hits, ScopePrefix(nodes, scope), limit).Ok? {
      AnswerIsSound(nodes, hits, scope, limit);
    } else {
      AnswerOrTooDeep(nodes, Init(hits), scope, limit);
      if Answer(nodes, Init(hits), ScopePrefix(nodes, scope), limit).Ok? {
        WalkUpOnTree(nodes, Last(hits));
        TooDeepAmong(nodes, [scope] + hits, |hits|);
      } else {
        var i :| 0 <= i < |[scope] + Init(hits)| && !Shallow(nodes, ([scope] + Init(hits))[i]);
        TooDeepAmong(nodes, [scope] + hits, i);
      }
    }
  }

  /** One hit gives its node's path exactly if the node is alive and its path properly extends
      the scope's, or the scope is the root. */
  lemma OneResult(nodes: Nodes, scope: nat, s: Path, hit: nat)
    requires TreeOk(nodes) && At(nodes, s, scope)
    ensures RelevantPaths(nodes, scope, [hit]) ==
            if hit in nodes && (s == [] || s < PathOf(nodes, hit)) then [PathBytes(PathOf(nodes, hit))] else []
  {
    assert Init([hit]) == [];
    assert RelevantPaths(nodes, scope, Init([hit])) == [];
    assert LinkOk(nodes, scope);
    if hit in nodes {
      ProperAncestorIsProperPrefix(nodes, scope, hit, s, PathOf(nodes, hit));
    }
  }

  /** And results come in the order of the hits. */
  lemma {:induction false} ResultsFollowHits(nodes: Nodes, scope: nat, first: seq<nat>, second: seq<nat>)
    requires TreeOk(nodes)
    ensures RelevantPaths(nodes, scope, first + second) ==
            RelevantPaths(nodes, scope, first) + RelevantPaths(nodes, scope, second)
  {
    if second == [] {
      assert first + second == first;
    } else {
      ResultsFollowHits(nodes, scope, first, Init(second));
      assert Init(first + second) == first + Init(second) && Last(first + second) == Last(second);
    }
  }
}
