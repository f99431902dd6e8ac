/**
  The per-target coordinator `crawl_target`: the crawled-URL set seeded with
  the bare host, the URL workers it spawns (recorded as dispatches) and the
  related hosts it forwards to the orchestrator, updated one link at a time.

  `CoordState`, `Step` and `Run` are the specification; the class
  `TargetCoordinator` is the coordinator itself, whose methods are proved to
  follow them.
 */
module Coordinator {
  import opened Wrappers
  import opened Strings
  import opened Hosts
  import opened Links

  /** A URL worker spawned for `url`, admitted because `key` was not yet crawled. */
  datatype Dispatch = Dispatch(key: string, url: string)

  datatype CoordState = CoordState(
    crawled: set<string>,
    dispatched: seq<Dispatch>,
    forwarded: seq<CrawlTarget>)

  /** The keys of a sequence of dispatches. */
  function Keys(ds: seq<Dispatch>): set<string>
  {
    set i | 0 <= i < |ds| :: ds[i].key
  }

  lemma KeysAppend(ds: seq<Dispatch>, d: Dispatch)
    ensures Keys(ds + [d]) == Keys(ds) + {d.key}
  {
    var e := ds + [d];
    assert e[|ds|].key == d.key;
    forall k | k in Keys(ds) ensures k in Keys(e) {
      var i :| 0 <= i < |ds| && ds[i].key == k;
      assert e[i].key == k;
    }
  }

  /** No two dispatches share a key. */
  ghost predicate DistinctKeys(ds: seq<Dispatch>)
  {
    forall i, j :: 0 <= i < j < |ds| ==> ds[i].key != ds[j].key
  }

  /**
    The coordinator's invariant: the crawled set is exactly the set of keys
    dispatched so far, each key was dispatched once, and every forwarded
    target is related to the crawled host.
   */
  ghost predicate Inv(target: Host, s: CoordState)
  {
    && s.crawled == Keys(s.dispatched)
    && DistinctKeys(s.dispatched)
    && forall i :: 0 <= i < |s.forwarded| ==> CompareHosts(s.forwarded[i].host, target) == Related
  }

  /**
    The state right after `crawl_target` starts: the crawled set holds the
    bare host and one worker fetches `https://<host>`.
   */
  function Start(target: Host): (s: CoordState)
    ensures |s.dispatched| == 1 && s.crawled == Keys(s.dispatched) && s.forwarded == []
  {
    var d := Dispatch(HostText(target), "https://" + HostText(target));
    KeysAppend([], d);
    assert [] + [d] == [d];
    CoordState({HostText(target)}, [d], [])
  }

  lemma StartInv(target: Host)
    ensures Inv(target, Start(target))
  {
    var ds := Start(target).dispatched;
    KeysAppend([], ds[0]);
    assert [] + [ds[0]] == ds;
  }

  /** One link of a batch: dispatch an uncrawled page, forward a new target, or nothing. */
  function Step(target: Host, s: CoordState, h: Href): (r: CoordState)
    requires WellFormedHref(h)
    ensures s.crawled <= r.crawled
    ensures |s.dispatched| <= |r.dispatched| <= |s.dispatched| + 1
    ensures r.dispatched[..|s.dispatched|] == s.dispatched
    ensures |r.dispatched| > |s.dispatched| ==> r.dispatched[|s.dispatched|].key !in s.crawled
    ensures |s.forwarded| <= |r.forwarded| <= |s.forwarded| + 1
    ensures r.forwarded[..|s.forwarded|] == s.forwarded
  {
    match Classify(h, target)
    case Page(k, url) =>
      if k in s.crawled then s
      else CoordState(s.crawled + {k}, s.dispatched + [Dispatch(k, url)], s.forwarded)
    case NewTarget(t) => s.(forwarded := s.forwarded + [t])
    case Drop => s
  }

  ghost predicate WellFormedBatch(batch: seq<Href>)
  {
    forall i :: 0 <= i < |batch| ==> WellFormedHref(batch[i])
  }

  /** The links of a batch, one after the other. */
  function Run(target: Host, s: CoordState, batch: seq<Href>): (r: CoordState)
    requires WellFormedBatch(batch)
    ensures s.crawled <= r.crawled
    ensures |r.dispatched| <= |s.dispatched| + |batch|
    ensures |r.forwarded| <= |s.forwarded| + |batch|
    decreases |batch|
  {
    if batch == [] then s
    else Step(target, Run(target, s, batch[..|batch| - 1]), batch[|batch| - 1])
  }

  /** A batch with one more link is the batch followed by one more step. */
  lemma RunSnoc(target: Host, s: CoordState, batch: seq<Href>, h: Href)
    requires WellFormedBatch(batch) && WellFormedHref(h)
    ensures WellFormedBatch(batch + [h])
    ensures Run(target, s, batch + [h]) == Step(target, Run(target, s, batch), h)
  {
    var b := batch + [h];
    assert b[..|b| - 1] == batch && b[|b| - 1] == h;
  }

  /** A batch of two links is the two steps one after the other. */
  lemma RunPair(target: Host, s: CoordState, b: seq<Href>)
    requires |b| == 2 && WellFormedHref(b[0]) && WellFormedHref(b[1])
    ensures WellFormedBatch(b)
    ensures Run(target, s, b) == Step(target, Step(target, s, b[0]), b[1])
  {
    assert b[..1] == [b[0]] && [b[0]][..0] == [];
    assert Run(target, s, [b[0]]) == Step(target, s, b[0]);
  }

  /** A link that is a page whose key is not crawled yet dispatches it and records its key. */
  lemma RunSnocNewPage(target: Host, s: CoordState, batch: seq<Href>, h: Href, k: string, u: string)
    requires WellFormedBatch(batch) && WellFormedHref(h)
    requires Classify(h, target) == Page(k, u) && k !in Run(target, s, batch).crawled
    ensures WellFormedBatch(batch + [h])
    ensures var r := Run(target, s, batch);
            Run(target, s, batch + [h]) == CoordState(r.crawled + {k}, r.dispatched + [Dispatch(k, u)], r.forwarded)
  {
    RunSnoc(target, s, batch, h);
  }

  /** A link to a related host appends it to the forwarded targets and changes nothing else. */
  lemma RunSnocForward(target: Host, s: CoordState, batch: seq<Href>, h: Href, t: CrawlTarget)
    requires WellFormedBatch(batch) && WellFormedHref(h)
    requires Classify(h, target) == NewTarget(t)
    ensures WellFormedBatch(batch + [h])
    ensures var r := Run(target, s, batch);
            Run(target, s, batch + [h]) == r.(forwarded := r.forwarded + [t])
  {
    RunSnoc(target, s, batch, h);
  }

  /** A dropped link changes nothing. */
  lemma RunSnocDrop(target: Host, s: CoordState, batch: seq<Href>, h: Href)
    requires WellFormedBatch(batch) && WellFormedHref(h)
    requires Classify(h, target) == Drop
    ensures WellFormedBatch(batch + [h])
    ensures Run(target, s, batch + [h]) == Run(target, s, batch)
  {
    RunSnoc(target, s, batch, h);
  }

  /** The keys of the pages among the links of a batch, dispatched or not. */
  function PageKeys(target: Host, batch: seq<Href>): set<string>
    requires WellFormedBatch(batch)
    decreases |batch|
  {
    if batch == [] then {}
    else
      var c := Classify(batch[|batch| - 1], target);
      PageKeys(target, batch[..|batch| - 1]) + if c.Page? then {c.key} else {}
  }

  /** The targets named by the links of a batch, in order, duplicates kept. */
  function NewTargets(target: Host, batch: seq<Href>): seq<CrawlTarget>
    requires WellFormedBatch(batch)
    decreases |batch|
  {
    if batch == [] then []
    else
      var c := Classify(batch[|batch| - 1], target);
      NewTargets(target, batch[..|batch| - 1]) + if c.NewTarget? then [c.target] else []
  }

  lemma {:induction false} StepPreservesInv(target: Host, s: CoordState, h: Href)
    requires WellFormedHref(h) && Inv(target, s)
    ensures Inv(target, Step(target, s, h))
  {
    var r := Step(target, s, h);
    match Classify(h, target)
    case Page(k, url) =>
      if k !in s.crawled {
        KeysAppend(s.dispatched, Dispatch(k, url));
      }
    case NewTarget(t) =>
    case Drop =>
  }

  /** Every batch keeps the invariant: no key is ever dispatched twice. */
  lemma {:induction false} RunPreservesInv(target: Host, s: CoordState, batch: seq<Href>)
    requires WellFormedBatch(batch) && Inv(target, s)
    ensures Inv(target, Run(target, s, batch))
    decreases |batch|
  {
    if batch != [] {
      RunPreservesInv(target, s, batch[..|batch| - 1]);
      StepPreservesInv(target, Run(target, s, batch[..|batch| - 1]), batch[|batch| - 1]);
    }
  }

  /** The crawled set gains exactly the page keys of the batch. */
  lemma {:induction false} RunCrawled(target: Host, s: CoordState, batch: seq<Href>)
    requires WellFormedBatch(batch)
    ensures Run(target, s, batch).crawled == s.crawled + PageKeys(target, batch)
    decreases |batch|
  {
    if batch != [] {
      RunCrawled(target, s, batch[..|batch| - 1]);
    }
  }

  /** The forwarded targets gain exactly the batch's related hosts, in order. */
  lemma {:induction false} RunForwarded(target: Host, s: CoordState, batch: seq<Href>)
    requires WellFormedBatch(batch)
    ensures Run(target, s, batch).forwarded == s.forwarded + NewTargets(target, batch)
    decreases |batch|
  {
    if batch != [] {
      RunForwarded(target, s, batch[..|batch| - 1]);
    }
  }

  /** Dispatches are only ever appended. */
  lemma {:induction false} RunKeepsDispatched(target: Host, s: CoordState, batch: seq<Href>)
    requires WellFormedBatch(batch)
    ensures |s.dispatched| <= |Run(target, s, batch).dispatched|
    ensures Run(target, s, batch).dispatched[..|s.dispatched|] == s.dispatched
    decreases |batch|
  {
    if batch != [] {
      var front := batch[..|batch| - 1];
      RunKeepsDispatched(target, s, front);
      var m := Run(target, s, front).dispatched;
      var r := Run(target, s, batch).dispatched;
      assert r[..|m|] == m;
      assert r[..|s.dispatched|] == m[..|s.dispatched|];
    }
  }

  /**
    What a batch does to the state: the crawled set gains exactly the page
    keys of the batch, earlier dispatches stay, and the forwarded targets
    gain exactly the batch's related hosts, in order.
   */
  lemma RunEffect(target: Host, s: CoordState, batch: seq<Href>)
    requires WellFormedBatch(batch)
    ensures Run(target, s, batch).crawled == s.crawled + PageKeys(target, batch)
    ensures |s.dispatched| <= |Run(target, s, batch).dispatched|
    ensures Run(target, s, batch).dispatched[..|s.dispatched|] == s.dispatched
    ensures Run(target, s, batch).forwarded == s.forwarded + NewTargets(target, batch)
  {
    RunCrawled(target, s, batch);
    RunForwarded(target, s, batch);
    RunKeepsDispatched(target, s, batch);
  }

  /** A worker is spawned only for a key that was not crawled before the batch. */
  lemma NewDispatchesAreNew(target: Host, s: CoordState, batch: seq<Href>)
    requires WellFormedBatch(batch) && Inv(target, s)
    ensures var r := Run(target, s, batch);
            forall i :: |s.dispatched| <= i < |r.dispatched| ==> r.dispatched[i].key !in s.crawled
  {
    var r := Run(target, s, batch);
    RunPreservesInv(target, s, batch);
    RunEffect(target, s, batch);
    forall i | |s.dispatched| <= i < |r.dispatched| ensures r.dispatched[i].key !in s.crawled {
      forall j | 0 <= j < |s.dispatched| ensures s.dispatched[j].key != r.dispatched[i].key {
        assert r.dispatched[j] == s.dispatched[j];
      }
    }
  }

  /** Batches processed one after another act as one batch of all their links. */
  lemma {:induction false} RunConcat(target: Host, s: CoordState, a: seq<Href>, b: seq<Href>)
    requires WellFormedBatch(a) && WellFormedBatch(b)
    ensures WellFormedBatch(a + b)
    ensures Run(target, s, a + b) == Run(target, Run(target, s, a), b)
    decreases |b|
  {
    assert WellFormedBatch(a + b) by {
      forall i | 0 <= i < |a + b| ensures WellFormedHref((a + b)[i]) {
        if i >= |a| { assert (a + b)[i] == b[i - |a|]; }
      }
    }
    if b == [] {
      assert a + b == a;
    } else {
      var b' := b[..|b| - 1];
      assert (a + b)[..|a + b| - 1] == a + b';
      assert (a + b)[|a + b| - 1] == b[|b| - 1];
      RunConcat(target, s, a, b');
    }
  }

  /**
    Two workers reporting the same link: the second report dispatches
    nothing more (a related host is, however, forwarded again).
   */
  lemma SameLinkTwiceDispatchesOnce(target: Host, s: CoordState, h: Href)
    requires WellFormedHref(h)
    ensures Step(target, Step(target, s, h), h).dispatched == Step(target, s, h).dispatched
    ensures Step(target, Step(target, s, h), h).crawled == Step(target, s, h).crawled
  {
  }

  /**
    Links to the target's root page, `http(s)://<host>/`, are never fetched
    again: their key is the bare host the crawled set starts with.
   */
  lemma RootPageNotRefetched(target: Host, scheme: string, raw: string, batch: seq<Href>)
    requires IsWebScheme(scheme)
    requires HostText(target) != [] && HostText(target)[0] != '/' && !EndsWith(HostText(target), '/')
    requires WellFormedBatch(batch)
    ensures var root := Href(raw, Some(Url(scheme, Some(target), scheme + "://" + HostText(target) + "/")));
            WellFormedHref(root) &&
            var s := Run(target, Start(target), batch);
            Step(target, s, root).dispatched == s.dispatched
  {
    RootPageKeyIsHostText(target, scheme, raw);
    RunEffect(target, Start(target), batch);
  }

  // ---------------------------------------------------------------------
  // The coordinator itself.
  // ---------------------------------------------------------------------

  class TargetCoordinator {
    const target: Host
    var crawled: set<string>
    var dispatched: seq<Dispatch>
    var forwarded: seq<CrawlTarget>

    function State(): CoordState
      reads this
    {
      CoordState(crawled, dispatched, forwarded)
    }

    /** Seeds the crawled set with the host and spawns the root page's worker. */
    constructor (target: Host)
      ensures this.target == target && State() == Start(target)
      ensures Inv(target, State())
    {
      this.target := target;
      var host := HostText(target);
      crawled := {host};
      dispatched := [Dispatch(host, "https://" + host)];
      forwarded := [];
      StartInv(target);
    }

    /** The body of the loop over one batch's links. */
    method ProcessLink(h: Href)
      requires WellFormedHref(h)
      modifies this
      ensures State() == Step(target, old(State()), h)
    {
      match h.parsed {
        case Some(u) =>
          if IsWebScheme(u.scheme) {
            match u.host {
              case Some(linkHost) =>
                var relation := CompareHosts(linkHost, target);
                if relation == Same {
                  var key := NormalizeKey(u);
                  if key !in crawled {
                    crawled := crawled + {key};
                    dispatched := dispatched + [Dispatch(key, u.serialization)];
                  }
                } else if relation == Related {
                  forwarded := forwarded + [CrawlTarget(linkHost)];
                }
              case None =>
            }
          }
        case None =>
          var path := TrimEnd(h.raw, '/');
          if StartsWith(path, "/") {
            var link := RootRelative(target, path);
            if link !in crawled {
              dispatched := dispatched + [Dispatch(link, link)];
              crawled := crawled + {link};
            }
          }
      }
    }

    /** One received batch of links, in the order they are iterated. */
    method ProcessBatch(batch: seq<Href>)
      requires WellFormedBatch(batch)
      modifies this
      ensures State() == Run(target, old(State()), batch)
      ensures Inv(target, old(State())) ==> Inv(target, State())
    {
      var i := 0;
      while i < |batch|
        invariant 0 <= i <= |batch|
        invariant State() == Run(target, old(State()), batch[..i])
      {
        assert batch[..i + 1][..i] == batch[..i];
        ProcessLink(batch[i]);
        i := i + 1;
      }
      assert batch[..i] == batch;
      if Inv(target, old(State())) {
        RunPreservesInv(target, old(State()), batch);
      }
    }
  }
}
