/**
 Who is linked to whom in the NIXL chain. The metadata list holds the agents of the actor workers, of
 which the first is rank 0, followed by those of the rollout workers, which are ranks 1, 2, ...
 */
module NixlTopology {
  import opened Options

  /** list[k:], where a negative k counts from the end and zero is the whole list. */
  function From<T>(s: seq<T>, k: int): seq<T> {
    if k < 0 then (if |s| + k < 0 then s else s[|s| + k..])
    else if k <= |s| then s[k..] else []
  }

  /** list[:-1] */
  function ButLast<T>(s: seq<T>): seq<T> {
    if s == [] then [] else s[..|s| - 1]
  }

  function Somes<T>(s: seq<T>): (r: seq<Option<T>>)
    ensures |r| == |s| && forall i :: 0 <= i < |s| ==> r[i] == Some(s[i])
  {
    seq(|s|, i requires 0 <= i < |s| => Some(s[i]))
  }

  /** What build_topology gives rank 0 and the rollout workers: the agent before and the agent after. */
  datatype Topology<T> = Topology(nextOfMaster: T, prevs: seq<Option<T>>, nexts: seq<Option<T>>)

  function BuildTopology<T>(rollouts: nat, metadata: seq<T>): Topology<T>
    requires 1 <= rollouts < |metadata|
  {
    Topology(metadata[|metadata| - rollouts],
             Somes([metadata[0]]) + Somes(ButLast(From(metadata, 0 - rollouts as int))),
             Somes(From(metadata, 1 - rollouts as int)) + [None])
  }

  /** Rank 0 and the rollout workers form one chain, and both lists have an entry for every worker. */
  ghost predicate IsChain<T>(t: Topology<T>, rollouts: nat, metadata: seq<T>)
    requires 1 <= rollouts < |metadata|
  {
    var first := |metadata| - rollouts;
    && |t.prevs| == |t.nexts| == rollouts
    && t.nextOfMaster == metadata[first] && t.prevs[0] == Some(metadata[0])
    && (forall i :: 0 < i < rollouts ==> t.prevs[i] == Some(metadata[first + (i - 1)]))
    && (forall i :: 0 <= i < rollouts - 1 ==> t.nexts[i] == Some(metadata[first + (i + 1)]))
    && t.nexts[rollouts - 1] == None
  }

  /** The links form a chain if and only if there are at least two rollout workers: for a single one the
      slice that should be empty is the whole list. */
  lemma ChainIffTwoWorkers<T>(rollouts: nat, metadata: seq<T>)
    requires 1 <= rollouts < |metadata|
    ensures IsChain(BuildTopology(rollouts, metadata), rollouts, metadata) <==> rollouts >= 2
  {
    var t := BuildTopology(rollouts, metadata);
    if rollouts == 1 {
      assert |t.nexts| == |metadata| + 1;
    }
  }
}
