/**
  The orchestrator `Vdovitsa::crawl`: the insertion-only set of crawl
  targets and the coordinators it spawns, one per target, first for the
  seeds and then for each newly received target not seen before.
 */
module Orchestrator {
  import opened Hosts

  datatype OrchState = OrchState(targets: set<CrawlTarget>, spawned: seq<CrawlTarget>)

  ghost predicate NoDuplicates(s: seq<CrawlTarget>)
  {
    forall i, j :: 0 <= i < j < |s| ==> s[i] != s[j]
  }

  /** Every target has a coordinator, and no target has two. */
  ghost predicate Inv(s: OrchState)
  {
    && (forall t :: t in s.spawned <==> t in s.targets)
    && NoDuplicates(s.spawned)
  }

  /** One received target: a coordinator is spawned only for a target not yet in the set. */
  function Admit(s: OrchState, t: CrawlTarget): (r: OrchState)
    ensures r.targets == s.targets + {t}
    ensures |s.spawned| <= |r.spawned| && r.spawned[..|s.spawned|] == s.spawned
    ensures |r.spawned| <= |s.spawned| + 1
    ensures |r.spawned| > |s.spawned| <==> t !in s.targets
    ensures |r.spawned| > |s.spawned| ==> r.spawned[|s.spawned|] == t
  {
    if t in s.targets then s else OrchState(s.targets + {t}, s.spawned + [t])
  }

  /** Targets received one after the other. */
  function AdmitAll(s: OrchState, ts: seq<CrawlTarget>): (r: OrchState)
    ensures s.targets <= r.targets
    ensures |r.spawned| <= |s.spawned| + |ts|
    decreases |ts|
  {
    if ts == [] then s else Admit(AdmitAll(s, ts[..|ts| - 1]), ts[|ts| - 1])
  }

  function Elements(ts: seq<CrawlTarget>): set<CrawlTarget>
  {
    set i | 0 <= i < |ts| :: ts[i]
  }

  lemma {:induction false} AdmitAllPreservesInv(s: OrchState, ts: seq<CrawlTarget>)
    requires Inv(s)
    ensures Inv(AdmitAll(s, ts))
    decreases |ts|
  {
    if ts != [] {
      AdmitAllPreservesInv(s, ts[..|ts| - 1]);
    }
  }

  /**
    What receiving does: the target set gains exactly the received targets
    and never loses one, the coordinators spawned before are kept, and
    every newly spawned coordinator is for a target that was not in the set.
   */
  lemma {:induction false} AdmitAllEffect(s: OrchState, ts: seq<CrawlTarget>)
    ensures AdmitAll(s, ts).targets == s.targets + Elements(ts)
    ensures |s.spawned| <= |AdmitAll(s, ts).spawned|
    ensures AdmitAll(s, ts).spawned[..|s.spawned|] == s.spawned
    ensures forall i :: |s.spawned| <= i < |AdmitAll(s, ts).spawned| ==>
              AdmitAll(s, ts).spawned[i] !in s.targets
    decreases |ts|
  {
    if ts != [] {
      var front := ts[..|ts| - 1];
      AdmitAllEffect(s, front);
      var m := AdmitAll(s, front);
      var r := Admit(m, ts[|ts| - 1]);
      assert r.spawned[..|m.spawned|] == m.spawned;
      assert r.spawned[..|s.spawned|] == m.spawned[..|s.spawned|];
      assert Elements(ts) == Elements(front) + {ts[|ts| - 1]} by {
        forall t | t in Elements(ts) ensures t in Elements(front) + {ts[|ts| - 1]} {
          var i :| 0 <= i < |ts| && ts[i] == t;
          if i < |ts| - 1 { assert front[i] == t; }
        }
        forall t | t in Elements(front) ensures t in Elements(ts) {
          var i :| 0 <= i < |front| && front[i] == t;
          assert ts[i] == t;
        }
      }
    }
  }

  /** A distinct sequence has as many elements as its set. */
  lemma {:induction false} DistinctCardinality(ts: seq<CrawlTarget>)
    requires NoDuplicates(ts)
    ensures |Elements(ts)| == |ts|
    decreases |ts|
  {
    if ts != [] {
      var front := ts[..|ts| - 1];
      var last := ts[|ts| - 1];
      DistinctCardinality(front);
      assert Elements(ts) == Elements(front) + {last} by {
        forall t | t in Elements(ts) ensures t in Elements(front) + {last} {
          var i :| 0 <= i < |ts| && ts[i] == t;
          if i < |ts| - 1 { assert front[i] == t; }
        }
        forall t | t in Elements(front) ensures t in Elements(ts) {
          var i :| 0 <= i < |front| && front[i] == t;
          assert ts[i] == t;
        }
      }
      assert last !in Elements(front);
    }
  }

  /** Under the invariant there are exactly as many coordinators as targets. */
  lemma OneCoordinatorPerTarget(s: OrchState)
    requires Inv(s)
    ensures |s.spawned| == |s.targets|
  {
    DistinctCardinality(s.spawned);
    assert Elements(s.spawned) == s.targets by {
      forall t | t in s.targets ensures t in Elements(s.spawned) {
        var i :| 0 <= i < |s.spawned| && s.spawned[i] == t;
      }
    }
  }

  /**
    A target fed twice, once as a seed and once discovered as related (or
    twice discovered), still has one coordinator.
   */
  lemma RediscoveredTargetSpawnsNothing(s: OrchState, t: CrawlTarget, n: nat)
    requires t in s.targets
    ensures AdmitAll(s, seq(n, _ => t)) == s
  {
    if n > 0 {
      assert seq(n, _ => t)[..n - 1] == seq(n - 1, _ => t);
      RediscoveredTargetSpawnsNothing(s, t, n - 1);
    }
  }

  // ---------------------------------------------------------------------
  // The orchestrator itself.
  // ---------------------------------------------------------------------

  class Vdovitsa {
    var targets: set<CrawlTarget>
    var spawned: seq<CrawlTarget>

    function State(): OrchState
      reads this
    {
      OrchState(targets, spawned)
    }

    /** `Vdovitsa::new` keeps the initial targets; nothing is spawned yet. */
    constructor (initial: set<CrawlTarget>)
      ensures targets == initial && spawned == []
    {
      targets := initial;
      spawned := [];
    }

    /**
      The start of `crawl`: a fresh task set, then one coordinator per
      initial target, in the set's iteration order.
     */
    method SpawnInitial()
      modifies this
      ensures targets == old(targets)
      ensures Inv(State()) && |spawned| == |targets|
    {
      spawned := [];
      var remaining := targets;
      while remaining != {}
        invariant targets == old(targets)
        invariant remaining <= targets
        invariant forall t :: t in spawned <==> t in targets - remaining
        invariant NoDuplicates(spawned)
        decreases remaining
      {
        var t :| t in remaining;
        assert t !in spawned;
        spawned := spawned + [t];
        remaining := remaining - {t};
      }
      OneCoordinatorPerTarget(State());
    }

    /** The body of `crawl`'s receive loop for one new potential target. */
    method Receive(t: CrawlTarget)
      modifies this
      ensures State() == Admit(old(State()), t)
    {
      if t !in targets {
        targets := targets + {t};
        spawned := spawned + [t];
      }
    }

    /** The receive loop over the targets that arrive, in arrival order. */
    method ReceiveAll(ts: seq<CrawlTarget>)
      modifies this
      ensures State() == AdmitAll(old(State()), ts)
      ensures Inv(old(State())) ==> Inv(State())
    {
      var i := 0;
      while i < |ts|
        invariant 0 <= i <= |ts|
        invariant State() == AdmitAll(old(State()), ts[..i])
      {
        assert ts[..i + 1][..i] == ts[..i];
        Receive(ts[i]);
        i := i + 1;
      }
      assert ts[..i] == ts;
      if Inv(old(State())) {
        AdmitAllPreservesInv(old(State()), ts);
      }
    }
  }
}
