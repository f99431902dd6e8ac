/**
  Whole crawls of small sites, followed through the coordinator and the
  orchestrator: the root page of `example.com` linking to a relative page,
  a sibling subdomain, an unrelated site and an `ftp` URL; and the same
  page linked once relatively and once absolutely.

  Host names and links are parameters fixed by a precondition such as
  `requires site == "example.com"` rather than literals in the contract:
  written that way the solver compares short strings piece by piece instead
  of unfolding long literals, which keeps these proofs within its limits.
 */
module Scenarios {
  import opened Wrappers
  import opened Strings
  import opened Hosts
  import opened Links
  import Coordinator
  import Orchestrator

  /** `sibling.example.com` is related to `example.com`. */
  lemma SiblingRelated(site: string, sib: string)
    requires site == "example.com" && sib == "sibling.example.com"
    ensures CompareHosts(Domain(sib), Domain(site)) == Related
  {
    SiteLabels(site);
    SiblingLabels(sib);
    SubdomainRelated("sibling", "example", "com");
  }

  lemma SiteLabels(site: string)
    requires site == "example.com"
    ensures site == "example" + "." + "com"
  {
  }

  lemma SiblingLabels(sib: string)
    requires sib == "sibling.example.com"
    ensures sib == "sibling" + "." + "example" + "." + "com"
  {
  }

  /** `unrelated.org` is not related to `example.com`. */
  lemma OtherUnrelated(site: string, org: string)
    requires site == "example.com" && org == "unrelated.org"
    ensures CompareHosts(Domain(org), Domain(site)) == Unrelated
  {
    TopLabelsOfLabels("", "example", "com");
    TopLabelsOfLabels("", "unrelated", "org");
    assert site == "example" + "." + "com";
    assert org == "unrelated" + "." + "org";
    assert TopLabels(org)[0] != TopLabels(site)[0];
  }

  /**
    Four links, classified as a page not yet crawled, a related host and
    two dropped links, add one worker and one forwarded target.
   */
  lemma RunPageForwardDropDrop(target: Host, s0: Coordinator.CoordState,
                                h1: Href, h2: Href, h3: Href, h4: Href, k: string, u: string, t: CrawlTarget)
    requires WellFormedHref(h1) && WellFormedHref(h2) && WellFormedHref(h3) && WellFormedHref(h4)
    requires Classify(h1, target) == Page(k, u) && k !in s0.crawled
    requires Classify(h2, target) == NewTarget(t)
    requires Classify(h3, target) == Drop && Classify(h4, target) == Drop
    ensures Coordinator.WellFormedBatch([h1, h2, h3, h4])
    ensures var r := Coordinator.Run(target, s0, [h1, h2, h3, h4]);
            r.dispatched == s0.dispatched + [Coordinator.Dispatch(k, u)] &&
            r.forwarded == s0.forwarded + [t]
  {
    PageThenForward(target, s0, h1, h2, k, u, t);
    var s2 := Coordinator.Run(target, s0, [h1, h2]);
    DropDrop(target, s2, h3, h4);
    Coordinator.RunConcat(target, s0, [h1, h2], [h3, h4]);
    assert [h1, h2] + [h3, h4] == [h1, h2, h3, h4];
  }

  /** A new page followed by a related host: one worker and one forwarded target. */
  lemma PageThenForward(target: Host, s0: Coordinator.CoordState, h1: Href, h2: Href, k: string, u: string, t: CrawlTarget)
    requires WellFormedHref(h1) && WellFormedHref(h2)
    requires Classify(h1, target) == Page(k, u) && k !in s0.crawled
    requires Classify(h2, target) == NewTarget(t)
    ensures Coordinator.WellFormedBatch([h1, h2])
    ensures Coordinator.Run(target, s0, [h1, h2]) ==
            Coordinator.CoordState(s0.crawled + {k}, s0.dispatched + [Coordinator.Dispatch(k, u)], s0.forwarded + [t])
  {
    Coordinator.RunPair(target, s0, [h1, h2]);
  }

  /** Two dropped links leave the coordinator as it was. */
  lemma DropDrop(target: Host, s: Coordinator.CoordState, h3: Href, h4: Href)
    requires WellFormedHref(h3) && WellFormedHref(h4)
    requires Classify(h3, target) == Drop && Classify(h4, target) == Drop
    ensures Coordinator.WellFormedBatch([h3, h4])
    ensures Coordinator.Run(target, s, [h3, h4]) == s
  {
    Coordinator.RunPair(target, s, [h3, h4]);
  }

  /** The link to the sibling subdomain names it as a new target. */
  lemma SiblingLinkForwarded(site: string, sib: string, h: Href)
    requires site == "example.com" && sib == "sibling.example.com"
    requires h == Href("https://" + sib + "/", Some(Url("https", Some(Domain(sib)), "https://" + sib + "/")))
    ensures WellFormedHref(h)
    ensures Classify(h, Domain(site)) == NewTarget(CrawlTarget(Domain(sib)))
  {
    HttpsAuthority(sib, "/");
    SiblingRelated(site, sib);
    RelatedLinkForwarded(h.raw, h.parsed.value, Domain(site));
  }

  /** The link to the unrelated site is dropped. */
  lemma OtherLinkDropped(site: string, org: string, h: Href)
    requires site == "example.com" && org == "unrelated.org"
    requires h == Href("https://" + org + "/", Some(Url("https", Some(Domain(org)), "https://" + org + "/")))
    ensures WellFormedHref(h)
    ensures Classify(h, Domain(site)) == Drop
  {
    HttpsAuthority(org, "/");
    OtherUnrelated(site, org);
    UnrelatedLinkDropped(h.raw, h.parsed.value, Domain(site));
  }

  /** `/about` on `example.com` is the page `https://example.com/about`, not yet crawled. */
  lemma AboutLinkPage(site: string, h: Href)
    requires site == "example.com" && h == Href("/about", None)
    ensures Classify(h, Domain(site)) == Page("https://" + site + "/about", "https://" + site + "/about")
    ensures "https://" + site + "/about" !in Coordinator.Start(Domain(site)).crawled
  {
    assert TrimEnd("/about", '/') == "/about";
    RootRelativePage("/about", Domain(site));
    assert |"https://" + site + "/about"| > |site|;
  }

  /**
    The crawl of `example.com` whose root page links to `/about`, to
    `https://sibling.example.com/`, to `https://unrelated.org/` and to
    `ftp://x.com`: the coordinator fetches the root page and `/about` and
    nothing else, forwards `sibling.example.com` once, and the orchestrator
    spawns a coordinator for it after the seed's.
   */
  lemma ExampleCrawl(site: string, sib: string, org: string, batch: seq<Href>)
    requires site == "example.com" && sib == "sibling.example.com" && org == "unrelated.org"
    requires batch == [
      Href("/about", None),
      Href("https://" + sib + "/", Some(Url("https", Some(Domain(sib)), "https://" + sib + "/"))),
      Href("https://" + org + "/", Some(Url("https", Some(Domain(org)), "https://" + org + "/"))),
      Href("ftp://x.com", Some(Url("ftp", Some(Domain("x.com")), "ftp://x.com/")))]
    ensures Coordinator.WellFormedBatch(batch)
    ensures var target := Domain(site);
            var r := Coordinator.Run(target, Coordinator.Start(target), batch);
            && r.dispatched == [Coordinator.Dispatch(site, "https://" + site),
                                Coordinator.Dispatch("https://" + site + "/about", "https://" + site + "/about")]
            && r.forwarded == [CrawlTarget(Domain(sib))]
            && Orchestrator.AdmitAll(Orchestrator.OrchState({CrawlTarget(target)}, [CrawlTarget(target)]), r.forwarded)
               == Orchestrator.OrchState({CrawlTarget(target), CrawlTarget(Domain(sib))},
                                         [CrawlTarget(target), CrawlTarget(Domain(sib))])
  {
    var target := Domain(site);
    var s0 := Coordinator.Start(target);
    var k := "https://" + site + "/about";
    var t := CrawlTarget(Domain(sib));
    var r := Coordinator.Run(target, s0, batch);
    assert Coordinator.WellFormedBatch(batch) &&
           r.dispatched == s0.dispatched + [Coordinator.Dispatch(k, k)] &&
           r.forwarded == s0.forwarded + [t] by {
      AboutLinkPage(site, batch[0]);
      SiblingLinkForwarded(site, sib, batch[1]);
      OtherLinkDropped(site, org, batch[2]);
      UnsupportedDropped(batch[3], target);
      RunPageForwardDropDrop(target, s0, batch[0], batch[1], batch[2], batch[3], k, k, t);
      assert batch == [batch[0], batch[1], batch[2], batch[3]];
    }
    assert s0.dispatched == [Coordinator.Dispatch(site, "https://" + site)] && s0.forwarded == [];
    assert t != CrawlTarget(target) by {
      assert |sib| != |site|;
    }
    NewTargetAdmitted(CrawlTarget(target), t);
  }

  /** A target other than the seed, received once, gets the second coordinator. */
  lemma NewTargetAdmitted(seed: CrawlTarget, t: CrawlTarget)
    requires t != seed
    ensures Orchestrator.AdmitAll(Orchestrator.OrchState({seed}, [seed]), [t]) ==
              Orchestrator.OrchState({seed, t}, [seed, t])
  {
    assert [t][..0] == [];
  }

  /** `https://example.com/about` on `example.com` is the page keyed `example.com/about`. */
  lemma AbsoluteAboutPage(site: string, h: Href)
    requires site == "example.com"
    requires h.parsed == Some(Url("https", Some(Domain(site)), "https://" + site + "/about"))
    ensures WellFormedHref(h)
    ensures Classify(h, Domain(site)) == Page(site + "/about", "https://" + site + "/about")
  {
    var u := h.parsed.value;
    var rest := site + "/about";
    assert u.serialization == u.scheme + "://" + rest + Repeat('/', 0);
    SameHostPage(h.raw, u, Domain(site), rest, 0);
    assert !EndsWith(rest, '/');
  }

  /**
    The same page linked as `/about` and as `https://example.com/about`:
    the two branches key it differently, so the coordinator spawns two
    workers for it beside the root page's.
   */
  lemma RelativeAndAbsoluteBothDispatched(site: string, raw: string, batch: seq<Href>)
    requires site == "example.com"
    requires batch == [Href("/about", None),
                       Href(raw, Some(Url("https", Some(Domain(site)), "https://" + site + "/about")))]
    ensures Coordinator.WellFormedBatch(batch)
    ensures var target := Domain(site);
            Coordinator.Run(target, Coordinator.Start(target), batch).dispatched ==
              [Coordinator.Dispatch(site, "https://" + site),
               Coordinator.Dispatch("https://" + site + "/about", "https://" + site + "/about"),
               Coordinator.Dispatch(site + "/about", "https://" + site + "/about")]
  {
    var target := Domain(site);
    var s0 := Coordinator.Start(target);
    var k1, k2, u2 := "https://" + site + "/about", site + "/about", "https://" + site + "/about";
    AboutLinkPage(site, batch[0]);
    AbsoluteAboutPage(site, batch[1]);
    assert |k1| > |k2| > |site|;
    StartThenTwoPages(target, batch[0], batch[1], k1, k1, k2, u2);
    assert batch == [batch[0], batch[1]];
  }

  /** Two new pages right after the start add two workers after the root page's. */
  lemma StartThenTwoPages(target: Host, h1: Href, h2: Href, k1: string, u1: string, k2: string, u2: string)
    requires WellFormedHref(h1) && WellFormedHref(h2)
    requires Classify(h1, target) == Page(k1, u1) && Classify(h2, target) == Page(k2, u2)
    requires k1 != HostText(target) && k2 != HostText(target) && k1 != k2
    ensures Coordinator.WellFormedBatch([h1, h2])
    ensures Coordinator.Run(target, Coordinator.Start(target), [h1, h2]).dispatched ==
            [Coordinator.Dispatch(HostText(target), "https://" + HostText(target)),
             Coordinator.Dispatch(k1, u1), Coordinator.Dispatch(k2, u2)]
  {
    var d0 := Coordinator.Dispatch(HostText(target), "https://" + HostText(target));
    var s0 := Coordinator.CoordState({HostText(target)}, [d0], []);
    assert Coordinator.Start(target) == s0;
    RunTwoNewPages(target, s0, h1, h2, k1, u1, k2, u2);
    ThreeElements(d0, Coordinator.Dispatch(k1, u1), Coordinator.Dispatch(k2, u2));
  }

  /** Appending three singletons builds the three-element sequence. */
  lemma ThreeElements<T>(a: T, b: T, c: T)
    ensures [a] + [b] + [c] == [a, b, c]
  {
  }

  /** Two links that are pages with distinct keys, neither crawled yet, add two workers. */
  lemma RunTwoNewPages(target: Host, s0: Coordinator.CoordState, h1: Href, h2: Href,
                       k1: string, u1: string, k2: string, u2: string)
    requires WellFormedHref(h1) && WellFormedHref(h2)
    requires Classify(h1, target) == Page(k1, u1) && Classify(h2, target) == Page(k2, u2)
    requires k1 !in s0.crawled && k2 !in s0.crawled && k1 != k2
    ensures Coordinator.WellFormedBatch([h1, h2])
    ensures Coordinator.Run(target, s0, [h1, h2]) ==
            Coordinator.CoordState(s0.crawled + {k1} + {k2},
                                   s0.dispatched + [Coordinator.Dispatch(k1, u1)] + [Coordinator.Dispatch(k2, u2)],
                                   s0.forwarded)
  {
    Coordinator.RunPair(target, s0, [h1, h2]);
  }
}
