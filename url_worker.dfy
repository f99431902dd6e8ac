/**
  The URL worker `crawl_url`: probe the headers, give up unless the page is
  HTML, fetch it, collect the `href` of every anchor into a set, and send
  that set to the coordinator only when it is non-empty.

  The HTTP requests and the HTML parser are outside the model: their
  results are the worker's inputs.
 */
module UrlWorker {
  import opened Wrappers
  import opened Strings

  /** A raw header value, as bytes. */
  datatype HeaderValue = HeaderValue(bytes: seq<bv8>)

  /** What the headers-only request gave: a failure, or the `Content-Type` value if present. */
  datatype Probe = ProbeFailed | Headers(contentType: Option<HeaderValue>)

  /**
    What the full request gave: the request failed, the body could not be
    decoded as text, or the document's anchors with their `href` attribute
    if they have one, in document order.
   */
  datatype Fetch = GetFailed | TextFailed | Document(anchors: seq<Option<string>>)

  /** The bytes `HeaderValue::to_str` accepts: visible ASCII and tab. */
  predicate VisibleAscii(b: bv8)
  {
    (32 <= b && b < 127) || b == 9
  }

  /** `HeaderValue::to_str`: the text of a value made only of visible ASCII. */
  function ToStr(v: HeaderValue): (r: Option<string>)
    ensures r.Some? <==> forall i :: 0 <= i < |v.bytes| ==> VisibleAscii(v.bytes[i])
    ensures r.Some? ==> |r.value| == |v.bytes|
    ensures r.Some? ==> forall i :: 0 <= i < |v.bytes| ==> r.value[i] as int == v.bytes[i] as int
  {
    if forall i :: 0 <= i < |v.bytes| ==> VisibleAscii(v.bytes[i])
    then Some(seq(|v.bytes|, i requires 0 <= i < |v.bytes| => v.bytes[i] as char))
    else None
  }

  /** The page is worth parsing: a readable `Content-Type` starting with `text/html`. */
  predicate IsHtml(p: Probe)
  {
    && p.Headers?
    && p.contentType.Some?
    && ToStr(p.contentType.value).Some?
    && StartsWith(ToStr(p.contentType.value).value, "text/html")
  }

  /** The `href` values present among the anchors, duplicates collapsed. */
  function Hrefs(anchors: seq<Option<string>>): set<string>
    decreases |anchors|
  {
    if anchors == [] then {}
    else
      var a := anchors[|anchors| - 1];
      Hrefs(anchors[..|anchors| - 1]) + if a.Some? then {a.value} else {}
  }

  lemma {:induction false} HrefsMembership(anchors: seq<Option<string>>, l: string)
    ensures l in Hrefs(anchors) <==> Some(l) in anchors
    decreases |anchors|
  {
    if anchors != [] {
      var front := anchors[..|anchors| - 1];
      HrefsMembership(front, l);
      assert anchors == front + [anchors[|anchors| - 1]];
    }
  }

  /** No `href` is collected exactly when no anchor has one. */
  lemma HrefsEmpty(anchors: seq<Option<string>>)
    ensures Hrefs(anchors) == {} <==> forall l :: Some(l) !in anchors
  {
    forall l ensures l in Hrefs(anchors) <==> Some(l) in anchors {
      HrefsMembership(anchors, l);
    }
    if Hrefs(anchors) != {} {
      var l :| l in Hrefs(anchors);
    }
  }

  /** The message the worker sends, if any. */
  function Output(p: Probe, f: Fetch): (r: Option<set<string>>)
    ensures r.Some? <==> IsHtml(p) && f.Document? && exists l :: Some(l) in f.anchors
    ensures r.Some? ==> r.value != {}
  {
    if !IsHtml(p) || !f.Document? then None
    else
      HrefsEmpty(f.anchors);
      var links := Hrefs(f.anchors);
      if links == {} then None else Some(links)
  }

  /**
    `crawl_url`: at most one message, sent only for an HTML page that has at
    least one `href`, holding exactly the page's `href` values.
   */
  method CrawlUrl(p: Probe, f: Fetch) returns (sent: Option<set<string>>)
    ensures sent == Output(p, f)
    ensures sent.Some? ==> IsHtml(p) && f.Document? && sent.value != {}
    ensures sent.Some? ==> forall l :: l in sent.value <==> Some(l) in f.anchors
  {
    if p.ProbeFailed? { return None; }
    if p.contentType.None? { return None; }
    var text := ToStr(p.contentType.value);
    if text.None? { return None; }
    if !StartsWith(text.value, "text/html") { return None; }

    var links: set<string> := {};
    if f.Document? {
      var i := 0;
      while i < |f.anchors|
        invariant 0 <= i <= |f.anchors|
        invariant links == Hrefs(f.anchors[..i])
      {
        assert f.anchors[..i + 1][..i] == f.anchors[..i];
        if f.anchors[i].Some? {
          links := links + {f.anchors[i].value};
        }
        i := i + 1;
      }
      assert f.anchors[..i] == f.anchors;
    }

    if links != {} {
      sent := Some(links);
      forall l ensures l in links <==> Some(l) in f.anchors {
        HrefsMembership(f.anchors, l);
      }
    } else {
      sent := None;
    }
  }

  /** A page that is not HTML is never parsed: what the full request gives does not matter. */
  lemma NonHtmlIgnoresBody(p: Probe, f1: Fetch, f2: Fetch)
    requires !IsHtml(p)
    ensures Output(p, f1) == Output(p, f2) == None
  {
  }

  /** Every failure is absorbed: it produces no message. */
  lemma FailuresSendNothing(p: Probe, f: Fetch)
    requires p.ProbeFailed? || f.GetFailed? || f.TextFailed?
    ensures Output(p, f) == None
  {
  }

  /** A page without any `href` sends nothing. */
  lemma NoLinksSendNothing(p: Probe, anchors: seq<Option<string>>)
    requires forall i :: 0 <= i < |anchors| ==> anchors[i].None?
    ensures Output(p, Document(anchors)) == None
  {
    if Hrefs(anchors) != {} {
      var l :| l in Hrefs(anchors);
      HrefsMembership(anchors, l);
    }
  }

  /** An `application/json` page is probed and dropped. */
  lemma JsonNotParsed(p: Probe, f: Fetch)
    requires p.Headers? && p.contentType.Some? && ToStr(p.contentType.value) == Some("application/json")
    ensures Output(p, f) == None
  {
    assert "application/json"[..9] != "text/html" by {
      assert "application/json"[0] != "text/html"[0];
    }
  }
}
