# cherna_vdovitsa crawler core, modelled in Dafny

The crawler `Vdovitsa` (file `src/crawler/mod.rs`) crawls a set of web hosts
at three levels:

- The **orchestrator** (`Vdovitsa::crawl`) owns the set of crawl targets. It
  spawns one coordinator per target. After that it spawns one more for every
  newly reported target that is not yet in the set.
- A **coordinator** (`crawl_target`) crawls one host. Its crawled-URL set
  starts with the bare host name, and its first URL worker fetches
  `https://<host>`. It classifies every link its workers report. A page of
  the same host that has not been crawled gets a new worker. A related host
  (same last two domain labels) is sent up to the orchestrator. Everything
  else is dropped.
- A **URL worker** (`crawl_url`) fetches one page. It only looks at a page
  whose `Content-Type` is `text/html`. It sends the set of the page's anchor
  `href` values, once, and only when that set is non-empty.
- The host relation (`compare_hosts`) decides between `Same`, `Related` and
  `Unrelated`.

The model is split into modules that follow this structure:

| file | module | what it holds |
|---|---|---|
| `wrappers.dfy` | `Wrappers` | `Option` |
| `strings.dfy` | `Strings` | `split`, join, `trim_end_matches`, `starts_with`, `split_once`, on `seq<char>` |
| `hosts.dfy` | `Hosts` | `Host`, `CrawlTarget`, `HostRelation`, `CompareHosts`, the `Display` text of a host |
| `links.dfy` | `Links` | parsed URLs, the crawled-URL key of a link, `Classify` (the body of the link loop) |
| `coordinator.dfy` | `Coordinator` | the coordinator's state, its specification `Step`/`Run`, and the class `TargetCoordinator` |
| `orchestrator.dfy` | `Orchestrator` | the target set, its specification `Admit`/`AdmitAll`, and the class `Vdovitsa` |
| `url_worker.dfy` | `UrlWorker` | the worker's gate and its `href` collection loop |
| `scenarios.dfy` | `Scenarios` | whole crawls of small example sites |

The two coordination loops change state in place, so each is a class whose
methods are proved to follow a specification function on values. The
coordinator is `Coordinator.TargetCoordinator`, with its crawled set,
dispatched workers and forwarded targets. The orchestrator is
`Orchestrator.Vdovitsa`, with its target set and spawned coordinators. The
invariants are then proved about those functions. The coordinator never
dispatches a key twice: its crawled set is exactly the set of dispatched
keys. Every forwarded target is related to the crawled host. The
orchestrator has exactly one coordinator per target.

Link keys follow the code, not the informal notion of "the normalised URL":

- An absolute same-host link is keyed by its serialisation. All trailing `/`
  are cut, and so is everything up to the first `://` (`x.com/a`).
- A link that does not parse but starts with `/` is keyed by the full URL
  `https://<host><path>` it is turned into.

So `/about` and `https://example.com/about` on `example.com` have different
keys, and both are fetched. `Scenarios.RelativeAndAbsoluteBothDispatched`
proves this. The crawled set's seed (the bare host) matches the key of the
absolute root page `https://<host>/`, and `Coordinator.RootPageNotRefetched`
proves it is not fetched again. A bare `/` trims to the empty string and is
dropped.

`Url::parse` belongs to the `url` crate and is not re-implemented. A link is
modelled as its raw text together with the result of parsing it. What the
code relies on from the crate is stated as `Links.WellFormed`: an http(s)
URL with a host serialises as `scheme://` followed by a non-empty authority.

## Model

| member | source | states |
|---|---|---|
| `Strings.Split` | src/crawler/mod.rs:216-217 | `split` always gives at least one part, so an empty name still has a label; `SplitJoinsBack` and `SplitJoin` pin the parts down exactly |
| `Strings.SplitJoinsBack` | src/crawler/mod.rs:216-217 | the parts of `split('.')` contain no separator, joining them gives the string back, and a string without the separator is its own single part |
| `Strings.SplitAppend` | src/crawler/mod.rs:216-217 | splitting two strings joined by the separator gives the parts of the first followed by the parts of the second |
| `Strings.SplitJoin` | src/crawler/mod.rs:216-217 | splitting the join of separator-free parts gives exactly those parts back |
| `Strings.TrimEnd` | src/crawler/mod.rs:119 | `trim_end_matches('/')` gives a prefix that no longer ends in `/`, and everything it removed was `/` |
| `Strings.TrimEndRemovesOnlyTrail` | src/crawler/mod.rs:119 | the string is the trimmed prefix followed by copies of the trimmed character |
| `Strings.TrimEndRepeat` | src/crawler/mod.rs:151 | extra trailing copies of the character do not change the trimmed result, so trimming is idempotent |
| `Strings.SplitOnce` | src/crawler/mod.rs:120-122 | `split_once` gives `None` only when the pattern does not occur; otherwise the text before and after its first occurrence |
| `Hosts.TopLabels` | src/crawler/mod.rs:216-217 | `split('.').rev().take(2)` holds one or two labels |
| `Hosts.CompareHosts` | src/crawler/mod.rs:210-248 | the relation is `Same` exactly for equal hosts, and `Related` only between two domains |
| `Hosts.DomainRelation` | src/crawler/mod.rs:212-225 | for two domains: `Same` iff the names are equal; `Related` iff they differ and their last two labels agree; `Unrelated` iff they differ and those labels differ |
| `Hosts.AddressRelation` | src/crawler/mod.rs:227-246 | when either host is an address, the relation is never `Related`, and it is `Same` iff the hosts are equal (mixed kinds are `Unrelated`) |
| `Hosts.SameIffEqual` | src/crawler/mod.rs:210-248 | `Same` holds exactly for equal hosts |
| `Hosts.CompareHostsSymmetric` | src/crawler/mod.rs:210-248 | the relation is symmetric |
| `Hosts.NotUnrelatedTransitive` | src/crawler/mod.rs:210-248 | being `Same` or `Related` is transitive |
| `Hosts.ParentIsLabelSuffix` | src/crawler/mod.rs:216-217 | the last two labels of a domain are a suffix of it, preceded by a dot when shorter |
| `Hosts.ParentTopLabels` | src/crawler/mod.rs:216-217 | a domain and its last-two-label parent have the same top labels |
| `Hosts.RelatedIffSameParent` | src/crawler/mod.rs:212-225 | two domains are `Related` iff they differ and share their last-two-label parent domain |
| `Hosts.SingleLabelNeverRelated` | src/crawler/mod.rs:212-225 | a domain with one label is related to nothing |
| `Hosts.TopLabelsOfLabels` | src/crawler/mod.rs:216-217 | `y.z` and `x.y.z` both have the top labels `[z, y]`, and `x.y.z` splits into `[x, y, z]` |
| `Hosts.SubdomainRelated` | src/crawler/mod.rs:212-225 | a one-label subdomain `x.y.z` is `Related` to its parent `y.z` |
| `Hosts.SiblingsRelated` | src/crawler/mod.rs:212-225 | two different one-label subdomains of the same parent are `Related` |
| `Hosts.SiblingSubdomainsRelated` | src/crawler/mod.rs:212-225 | `a.example.com` and `b.example.com` are `Related` |
| `Hosts.DifferentDomainsUnrelated` | src/crawler/mod.rs:212-225 | `a.com` and `b.com` are `Unrelated` |
| `Hosts.PublicSuffixLimitation` | src/crawler/mod.rs:216-220 | `foo.co.uk` and `bar.co.uk` are called `Related`: the heuristic ignores two-label public suffixes |
| `Hosts.ClassifierExamples` | src/crawler/mod.rs:210-248 | equal domains and equal IPv4 addresses are `Same`; other IPv4 addresses and a domain against an address are `Unrelated` |
| `Hosts.HostTextExamples` | src/crawler/mod.rs:90 | the IPv4 host 1.2.3.4 is written `1.2.3.4` |
| `Hosts.LongestZeroRun` | src/crawler/mod.rs:90 | the run the `url` crate writes as `::` is maximal and made of zero pieces, no run at or after the scan start is longer, and every run starting before it is shorter: the first longest run (a run of one piece is never chosen, since the scan starts from a best of length one) |
| `Hosts.HostText` | src/crawler/mod.rs:90 | a domain is written as itself, an IPv4 address starts and ends with a digit, an IPv6 address is bracketed; so only a domain can give an empty seed key or one that begins or ends with `/` |
| `Hosts.LoopbackZeroRun` | src/crawler/mod.rs:90 | the longest run of zero pieces of `::1` is its first seven pieces |
| `Hosts.Ipv6TextLastPieceOnly` | src/crawler/mod.rs:90 | an IPv6 address whose only non-zero piece is a final 1 is written `::1` |
| `Hosts.Ipv6LoopbackText` | src/crawler/mod.rs:90 | the IPv6 loopback host is written `[::1]` |
| `Links.NormalizeKey` | src/crawler/mod.rs:117-123 | the key of a same-host link is non-empty, does not start or end with `/`, and the serialisation is the scheme, `://`, the key and the cut trailing slashes |
| `Links.AfterSchemeSeparator` | src/crawler/mod.rs:117-123 | once the trailing slashes are cut, the first `://` of an http(s) serialisation is the one after the scheme, so the `split_once(...).unwrap()` never panics |
| `Links.Classify` | src/crawler/mod.rs:105-168 | a link names a new target iff it is a parsed http(s) link whose host is `Related`; it is a page from a parsed link iff it is http(s) and its host equals the target; it is a page from an unparsed link iff, with trailing slashes cut, it starts with `/`; page keys are non-empty and never end in `/` |
| `Links.ForwardedIsRelatedDomain` | src/crawler/mod.rs:133-138 | a forwarded target is a domain different from the target with the same parent domain |
| `Links.KeyOfSerialization` | src/crawler/mod.rs:117-123 | the key of `scheme://rest` followed by slashes is `rest` with its trailing slashes cut |
| `Links.KeyIgnoresSchemeAndTrailingSlashes` | src/crawler/mod.rs:117-123 | `http` and `https` spellings of a URL, with any number of trailing slashes, share one key |
| `Links.NormalizeIdempotent` | src/crawler/mod.rs:117-123 | the URL `scheme://key` normalises back to `key` |
| `Links.SecurePageKey` | src/crawler/mod.rs:117-123 | `https://x.com/a` is keyed `x.com/a` |
| `Links.PlainPageWithSlashKey` | src/crawler/mod.rs:117-123 | `http://x.com/a/` is keyed `x.com/a` too |
| `Links.RootPageKeyIsHostText` | src/crawler/mod.rs:115-125 | the root page `scheme://<host>/` is a page keyed by the bare host text |
| `Links.AuthorityOf` | src/crawler/mod.rs:108-110 | `scheme://rest` has an authority when `rest` starts with a non-`/` character |
| `Links.SlashesOnlyDropped` | src/crawler/mod.rs:151-152 | an unparsed link made only of slashes, such as `/`, is dropped |
| `Links.UnsupportedDropped` | src/crawler/mod.rs:106-148 | a parsed link with another scheme or without a host is dropped |
| `Links.RelatedLinkForwarded` | src/crawler/mod.rs:133-138 | an http(s) link to a related host names that host as a new target |
| `Links.UnrelatedLinkDropped` | src/crawler/mod.rs:141 | an http(s) link to an unrelated host is dropped |
| `Links.RootRelativePage` | src/crawler/mod.rs:150-158 | an unparsed link that, with its trailing slashes cut, starts with `/` is the page `https://<host><path>` for the cut path, keyed by that same URL (`/about/` gives `https://<host>/about`) |
| `Links.RootRelativeTrailingSlashes` | src/crawler/mod.rs:151-158 | trailing slashes on an unparsed link do not change how it is classified: `/about/` is the same page, with the same key, as `/about` |
| `Links.RootRelative` | src/crawler/mod.rs:154-158 | the constructed link is `https://` followed by a non-`/` character whenever the host text is non-empty and does not start with `/` |
| `Links.HttpsAuthority` | src/crawler/mod.rs:154-158 | `https://` followed by a host not starting with `/` and any path has an authority |
| `Links.SameHostPage` | src/crawler/mod.rs:115-131 | a same-host http(s) link `scheme://rest` is the page keyed by `rest` with trailing slashes cut, fetched at its own serialisation |
| `Links.SplitOnceAfterScheme` | src/crawler/mod.rs:120-122 | a string that starts with `scheme://`, for a scheme without `:`, splits once into the scheme and what follows the separator |
| `Links.KeyText` | src/crawler/mod.rs:119-122 | trimming `scheme://rest` followed by slashes and splitting it once at `://` gives the scheme and `rest` with its trailing slashes cut |
| `Coordinator.Start` | src/crawler/mod.rs:89-98 | the coordinator starts with one worker, its crawled set is exactly that worker's key, and nothing is forwarded |
| `Coordinator.Step` | src/crawler/mod.rs:106-168 | one link never removes a crawled key, keeps the earlier workers and forwarded targets as a prefix, spawns at most one worker, for a key not yet crawled, and forwards at most one target |
| `Coordinator.Run` | src/crawler/mod.rs:105-169 | a batch never shrinks the crawled set, and spawns at most one worker and forwards at most one target per link |
| `Coordinator.StartInv` | src/crawler/mod.rs:89-98 | the starting state (bare host crawled, root page dispatched) satisfies the invariant |
| `Coordinator.StepPreservesInv` | src/crawler/mod.rs:105-169 | one link keeps the invariant: crawled set equals the dispatched keys, no key dispatched twice, every forwarded target is related |
| `Coordinator.RunPreservesInv` | src/crawler/mod.rs:100-170 | every sequence of links keeps the invariant |
| `Coordinator.RunSnocNewPage` | src/crawler/mod.rs:124-131 | one more link that is a page not yet crawled adds its key to the crawled set and appends one worker for it; the forwarded targets are unchanged |
| `Coordinator.RunSnocForward` | src/crawler/mod.rs:133-138 | one more link to a related host appends that target to the forwarded ones and changes nothing else |
| `Coordinator.RunSnocDrop` | src/crawler/mod.rs:141-152 | one more dropped link leaves the state unchanged |
| `Coordinator.RunCrawled` | src/crawler/mod.rs:100-170 | after a batch the crawled set is the earlier set plus exactly the batch's page keys |
| `Coordinator.RunForwarded` | src/crawler/mod.rs:100-170 | after a batch the forwarded targets are the earlier ones followed by the batch's related targets, in order |
| `Coordinator.RunKeepsDispatched` | src/crawler/mod.rs:100-170 | a batch never removes or reorders earlier workers |
| `Coordinator.RunEffect` | src/crawler/mod.rs:100-170 | a batch adds exactly its page keys to the crawled set, keeps earlier dispatches, and appends exactly its related targets, in order, to the forwarded ones |
| `Coordinator.NewDispatchesAreNew` | src/crawler/mod.rs:124-131 | every worker a batch spawns is for a key that was not crawled before it |
| `Coordinator.RunConcat` | src/crawler/mod.rs:100-105 | two batches in a row act like one batch of all their links |
| `Coordinator.RunPair` | src/crawler/mod.rs:105-169 | a batch of two links is the step for the first link followed by the step for the second |
| `Coordinator.SameLinkTwiceDispatchesOnce` | src/crawler/mod.rs:124-131 | the same link reported twice spawns no second worker |
| `Coordinator.RootPageNotRefetched` | src/crawler/mod.rs:89-90 | after any batch, a link to the target's root page `scheme://<host>/` spawns nothing |
| `Coordinator.TargetCoordinator.constructor` | src/crawler/mod.rs:86-98 | the coordinator starts from the starting state, which satisfies the invariant |
| `Coordinator.TargetCoordinator.ProcessLink` | src/crawler/mod.rs:106-168 | processing one link moves the state exactly as `Step` says |
| `Coordinator.TargetCoordinator.ProcessBatch` | src/crawler/mod.rs:105-169 | processing a batch moves the state exactly as `Run` says and keeps the invariant |
| `Orchestrator.Admit` | src/crawler/mod.rs:67-75 | a received target joins the target set, earlier coordinators stay as a prefix, at most one coordinator is added, one is added exactly when the target was not yet in the set, and the added one is for that target |
| `Orchestrator.AdmitAll` | src/crawler/mod.rs:61-76 | the target set never shrinks, and at most one coordinator is spawned per received target |
| `Orchestrator.AdmitAllPreservesInv` | src/crawler/mod.rs:61-76 | receiving targets keeps exactly one coordinator per target |
| `Orchestrator.AdmitAllEffect` | src/crawler/mod.rs:67-75 | the target set gains exactly the received targets, earlier coordinators stay, and each new coordinator is for a target that was not in the set |
| `Orchestrator.OneCoordinatorPerTarget` | src/crawler/mod.rs:47-75 | under the invariant there are as many coordinators as targets |
| `Orchestrator.RediscoveredTargetSpawnsNothing` | src/crawler/mod.rs:67-75 | a known target received any number of times changes nothing |
| `Orchestrator.Vdovitsa.constructor` | src/crawler/mod.rs:23-41 | the crawler keeps the initial targets and has spawned nothing |
| `Orchestrator.Vdovitsa.SpawnInitial` | src/crawler/mod.rs:47-56 | after the start of `crawl` every initial target has exactly one coordinator |
| `Orchestrator.Vdovitsa.Receive` | src/crawler/mod.rs:67-75 | one received target moves the state exactly as `Admit` says |
| `Orchestrator.Vdovitsa.ReceiveAll` | src/crawler/mod.rs:61-76 | the receive loop moves the state exactly as `AdmitAll` says and keeps one coordinator per target |
| `UrlWorker.ToStr` | src/crawler/mod.rs:179 | a header value is readable iff all its bytes are visible ASCII or tab, and its text is those bytes |
| `UrlWorker.HrefsMembership` | src/crawler/mod.rs:194-199 | a string is in the collected set iff some anchor has it as `href` |
| `UrlWorker.HrefsEmpty` | src/crawler/mod.rs:194-204 | the collected set is empty exactly when no anchor has an `href` |
| `UrlWorker.Output` | src/crawler/mod.rs:175-206 | a message is sent exactly when the content type reads as `text/html`, the page was fetched and some anchor has an `href`; a sent set is never empty |
| `UrlWorker.CrawlUrl` | src/crawler/mod.rs:175-207 | the worker sends at most one message, only for a readable `text/html` content type and a fetched document, and the message is a non-empty set of exactly the page's `href` values |
| `UrlWorker.NonHtmlIgnoresBody` | src/crawler/mod.rs:176-182 | a page that is not HTML sends nothing, whatever the full request would give |
| `UrlWorker.FailuresSendNothing` | src/crawler/mod.rs:177-188 | a failed probe, a failed request or a body that is not text sends nothing |
| `UrlWorker.NoLinksSendNothing` | src/crawler/mod.rs:203-206 | a page without any `href` sends nothing |
| `UrlWorker.JsonNotParsed` | src/crawler/mod.rs:180-182 | an `application/json` page is never parsed |
| `Scenarios.SiblingRelated` | src/crawler/mod.rs:212-225 | `sibling.example.com` is related to `example.com` |
| `Scenarios.OtherUnrelated` | src/crawler/mod.rs:212-225 | `unrelated.org` is not related to `example.com` |
| `Scenarios.RunPageForwardDropDrop` | src/crawler/mod.rs:105-169 | a batch of a page not yet crawled (relative or absolute, keyed `k` and fetched at `u`), a related host and two dropped links adds exactly the worker `(k, u)` and one forwarded target |
| `Scenarios.SiblingLinkForwarded` | src/crawler/mod.rs:133-138 | on `example.com`, the link `https://sibling.example.com/` names `sibling.example.com` as a new target |
| `Scenarios.OtherLinkDropped` | src/crawler/mod.rs:141 | on `example.com`, the link `https://unrelated.org/` is dropped |
| `Scenarios.AboutLinkPage` | src/crawler/mod.rs:150-158 | on `example.com`, the unparsed link `/about` is the page `https://example.com/about`, keyed by that URL, which the starting crawled set does not hold |
| `Scenarios.AbsoluteAboutPage` | src/crawler/mod.rs:115-131 | on `example.com`, the parsed link `https://example.com/about` is the page keyed `example.com/about` |
| `Scenarios.ExampleCrawl` | src/crawler/mod.rs:61-169 | for `example.com` linking to `/about`, a sibling subdomain, an unrelated site and an `ftp` URL: only the root page and `/about` are fetched, the sibling is forwarded once, and the orchestrator then spawns its coordinator |
| `Scenarios.RelativeAndAbsoluteBothDispatched` | src/crawler/mod.rs:105-169 | `/about` and `https://example.com/about` in one batch spawn two workers for the same page |
| `Scenarios.RunTwoNewPages` | src/crawler/mod.rs:124-131 | two links that are pages with distinct keys, neither crawled yet, add both keys and one worker each, in link order, and forward nothing |

## Left out

- Concurrency is not modelled: the channels, the `JoinSet`s, the reaping of finished tasks and the closing of receivers (lines 44-65, 92-104). A coordinator's batches and the orchestrator's targets are modelled as sequences in arrival order, and any order is allowed. The model handles every message as if the tasks it needs were still alive. The task machinery can change what happens to a message, as the next three lines say.
- `weak_tx.upgrade().unwrap()` at line 73 panics once every coordinator has finished and dropped its `Sender`. This happens when the last live coordinator forwards a target and finishes before the orchestrator receives it. The reap at line 62 then empties the task set, line 64 closes the receiver, and `crawl` panics at line 73 instead of spawning. The model does not capture this. At line 54 `tx` is still alive, so that `unwrap` cannot fail.
- After a coordinator closes its receiver (line 103), a worker it spawns later cannot deliver its links: its `send` at line 205 fails and its `unwrap` panics. In the same way, a coordinator's `send` at line 138 fails after the orchestrator has closed its receiver (line 64). The model delivers every message.
- Scenarios.ExampleCrawl: the spawn of the sibling's coordinator assumes that some coordinator is still alive when the orchestrator receives the sibling, so that the upgrade at line 73 succeeds.
- Orchestrator.Vdovitsa.Receive: spawning a coordinator assumes the upgrade at line 73 succeeds, as the line above describes; the panic path is not modelled.
- Termination of the crawl is not modelled, since it rests on the channel machinery. `crawl_target` holds its own `tx` (line 92) until it returns, so `new_links.recv()` at line 100 never sees every sender gone. Its loop ends only through the close at line 103, which runs only after a message arrives. A target whose root-page worker sends nothing (a failed probe, a page that is not HTML, a page without links) leaves its coordinator waiting at line 100 forever. That coordinator still holds its strong `new_targets` sender, so `crawl` waits at line 61 forever too.
- `HashSet` iteration order (lines 50 and 105) is not modelled. The model takes the elements in any sequence order, or picks them in any order (`SpawnInitial`).
- The HTTP requests are inputs to `UrlWorker.CrawlUrl`. `get_url_response_headers` and `get_url` live in `crate::util::web`, which is not part of this model. So are `response.text()` and the HTML parser `scraper`.
- `Url::parse` itself is not modelled. A link carries what parsing gave. `Links.WellFormed` states the one property of the `url` crate the code relies on.
- The `Host` type's `Display` follows the `url` crate as published: domains as is, IPv4 in dotted decimal, IPv6 in brackets with the first longest run of two or more zero pieces written `::`.
- `UrlWorker.ToStr` models `HeaderValue::to_str` of the `http` crate as documented there: visible ASCII and tab are accepted.
- `Vdovitsa::new`'s HTTP client configuration and its `CrawlerError` path (lines 24-40) are not modelled. Building the client is I/O this model leaves out, and `Orchestrator.Vdovitsa.constructor` is its success path.
- `CrawlerError` and its `Display` (lines 258-283) are not modelled; they only wrap a message.
- `println!` progress lines (lines 78, 87, 172) are logging and are not modelled.
- `Coordinator.TargetCoordinator.ProcessLink`: a root-relative link's worker is recorded with the constructed URL string. The re-parse at line 162 and its `unwrap` are not modelled. The root page's worker URL (line 96) is likewise recorded as the string `https://<host>`.
- `Links.NormalizeKey`: requires an http(s) serialisation with an authority, which the `url` crate guarantees for URLs with a host. So the panic of the `unwrap` at line 121 is not modelled; `Links.AfterSchemeSeparator` shows it cannot happen.
- `HostRelation`'s derived `Debug`/`Clone`/`Copy` are not modelled.
