/**
  Hosts as the `url` crate gives them (a domain name, an IPv4 or an IPv6
  address), their textual form, and the crawler's host relation classifier
  `compare_hosts`.
 */
module Hosts {
  import opened Wrappers
  import opened Strings

  /** The eight 16-bit pieces of an IPv6 address. */
  type Ipv6Pieces = p: seq<bv16> | |p| == 8 witness [0, 0, 0, 0, 0, 0, 0, 0]

  datatype Host = Domain(name: string) | Ipv4(addr: bv32) | Ipv6(pieces: Ipv6Pieces)

  /** A crawl target is identified by its host; equality is equality of hosts. */
  datatype CrawlTarget = CrawlTarget(host: Host)

  datatype HostRelation = Same | Related | Unrelated

  /**
    The labels `compare_hosts` compares: the last label of the domain, then
    the one before it if there is one (`split('.').rev().take(2)`).
   */
  function TopLabels(d: string): (r: seq<string>)
    ensures 1 <= |r| <= 2
  {
    var p := Split(d, '.');
    if |p| >= 2 then [p[|p| - 1], p[|p| - 2]] else [p[0]]
  }

  /** `compare_hosts`: how the host of a link relates to the host being crawled. */
  function CompareHosts(h1: Host, h2: Host): (r: HostRelation)
    ensures r == Same <==> h1 == h2
    ensures r == Related ==> h1.Domain? && h2.Domain?
  {
    match (h1, h2)
    case (Domain(d1), Domain(d2)) =>
      if d1 == d2 then Same
      else if TopLabels(d1) == TopLabels(d2) then Related
      else Unrelated
    case (Ipv4(a1), Ipv4(a2)) => if a1 == a2 then Same else Unrelated
    case (Ipv6(a1), Ipv6(a2)) => if a1 == a2 then Same else Unrelated
    case _ => Unrelated
  }

  /** For two domains: `Same` iff equal, otherwise `Related` iff the top labels agree. */
  lemma DomainRelation(d1: string, d2: string)
    ensures CompareHosts(Domain(d1), Domain(d2)) == Same <==> d1 == d2
    ensures CompareHosts(Domain(d1), Domain(d2)) == Related <==>
              d1 != d2 && TopLabels(d1) == TopLabels(d2)
    ensures CompareHosts(Domain(d1), Domain(d2)) == Unrelated <==>
              d1 != d2 && TopLabels(d1) != TopLabels(d2)
  {
  }

  /** Two addresses are `Same` iff equal, else `Unrelated`; mixed kinds are `Unrelated`. */
  lemma AddressRelation(h1: Host, h2: Host)
    requires !(h1.Domain? && h2.Domain?)
    ensures CompareHosts(h1, h2) != Related
    ensures CompareHosts(h1, h2) == Same <==> h1 == h2
  {
  }

  /** `Same` means equal hosts, for every kind of host. */
  lemma SameIffEqual(h1: Host, h2: Host)
    ensures CompareHosts(h1, h2) == Same <==> h1 == h2
  {
  }

  /** Every branch compares with a symmetric equality, so the relation is symmetric. */
  lemma CompareHostsSymmetric(h1: Host, h2: Host)
    ensures CompareHosts(h1, h2) == CompareHosts(h2, h1)
  {
  }

  /** Being `Same` or `Related` is transitive: it is "having the same top labels". */
  lemma NotUnrelatedTransitive(h1: Host, h2: Host, h3: Host)
    requires CompareHosts(h1, h2) != Unrelated && CompareHosts(h2, h3) != Unrelated
    ensures CompareHosts(h1, h3) != Unrelated
  {
  }

  /**
    The parent domain the heuristic stands for: the last two labels of the
    domain with their dot (or the single label of a one-label domain).
   */
  function Parent(d: string): string
  {
    var p := Split(d, '.');
    if |p| >= 2 then p[|p| - 2] + "." + p[|p| - 1] else p[0]
  }

  lemma JoinLastTwo(p: seq<string>)
    requires |p| >= 2
    ensures |p| == 2 ==> Join(p, '.') == p[0] + "." + p[1]
    ensures |p| > 2 ==> Join(p, '.') == Join(p[..|p| - 2], '.') + "." + (p[|p| - 2] + "." + p[|p| - 1])
  {
    if |p| > 2 {
      var front, a, b := p[..|p| - 2], p[|p| - 2], p[|p| - 1];
      assert p == front + [a, b];
      JoinAppend(front, [a, b], '.');
      assert Join([a, b], '.') == a + "." + b by { assert [a, b][1..] == [b]; }
    }
  }

  /**
    A domain ends with its parent, and when it is longer the parent is a
    whole-label suffix, preceded by a dot.
   */
  lemma ParentIsLabelSuffix(d: string)
    ensures |Parent(d)| <= |d| && d[|d| - |Parent(d)|..] == Parent(d)
    ensures |Parent(d)| < |d| ==> d[|d| - |Parent(d)| - 1] == '.'
  {
    var p := Split(d, '.');
    SplitJoinsBack(d, '.');
    if |p| > 2 {
      JoinLastTwo(p);
      var pre := Join(p[..|p| - 2], '.');
      assert d == (pre + ".") + Parent(d);
    } else if |p| == 2 {
      JoinLastTwo(p);
    }
  }

  /** The parent of a domain has the same top labels as the domain. */
  lemma ParentTopLabels(d: string)
    ensures TopLabels(Parent(d)) == TopLabels(d)
  {
    var p := Split(d, '.');
    SplitJoinsBack(d, '.');
    if |p| >= 2 {
      var pair := [p[|p| - 2], p[|p| - 1]];
      assert pair[1..] == [p[|p| - 1]];
      assert Join(pair, '.') == Parent(d);
      SplitJoin(pair, '.');
    } else {
      SplitJoin([p[0]], '.');
    }
  }

  /**
    The `Related` rule in terms of parents: two different domains are
    related exactly when they lie under the same parent.
   */
  lemma RelatedIffSameParent(d1: string, d2: string)
    ensures CompareHosts(Domain(d1), Domain(d2)) == Related <==>
              d1 != d2 && Parent(d1) == Parent(d2)
  {
    ParentTopLabels(d1);
    ParentTopLabels(d2);
  }

  /** A one-label domain (such as `localhost`) is never `Related` to any host. */
  lemma {:induction false} SingleLabelNeverRelated(d: string, h: Host)
    requires '.' !in d
    ensures CompareHosts(Domain(d), h) != Related
  {
    SplitJoinsBack(d, '.');
    if h.Domain? {
      SplitJoinsBack(h.name, '.');
    }
  }

  // ---------------------------------------------------------------------
  // Textual form of a host (`format!("{}", host)`), as the `url` crate
  // writes it: the domain itself, dotted-decimal IPv4, and bracketed IPv6
  // with lower-case hexadecimal pieces and the first longest run of two or
  // more zero pieces written as `::`.
  // ---------------------------------------------------------------------

  function Digit(n: nat): (c: char)
    requires n < 16
    ensures n < 10 ==> '0' <= c <= '9'
  {
    "0123456789abcdef"[n]
  }

  /** `n` in base `b` (10 or 16), without leading zeros. */
  function Numeral(n: nat, b: nat): (r: string)
    requires b == 10 || b == 16
    ensures |r| >= 1
    ensures b == 10 ==> '0' <= r[0] <= '9' && '0' <= r[|r| - 1] <= '9'
    decreases n
  {
    if n < b then [Digit(n)] else Numeral(n / b, b) + [Digit(n % b)]
  }

  function Ipv4Text(a: bv32): (r: string)
    ensures r != [] && '0' <= r[0] <= '9' && '0' <= r[|r| - 1] <= '9'
  {
    var n := a as int;
    var w, x, y := Numeral(n / 0x100_0000, 10), Numeral(n / 0x1_0000 % 256, 10), Numeral(n / 0x100 % 256, 10);
    var z := Numeral(n % 256, 10);
    var t := w + "." + x + "." + y + "." + z;
    assert t[0] == w[0] && t[|t| - 1] == z[|z| - 1];
    t
  }

  /** The number of consecutive zero pieces starting at `i`. */
  function ZeroRun(p: seq<bv16>, i: nat): (n: nat)
    requires i <= |p|
    ensures i + n <= |p|
    ensures forall k :: i <= k < i + n ==> p[k] == 0
    ensures i + n < |p| ==> p[i + n] != 0
    decreases |p| - i
  {
    if i < |p| && p[i] == 0 then 1 + ZeroRun(p, i + 1) else 0
  }

  /** Inside a run of zero pieces, the run from a later piece is the rest of it. */
  lemma {:induction false} ZeroRunInside(p: seq<bv16>, i: nat)
    requires i <= |p|
    ensures forall j :: i <= j < i + ZeroRun(p, i) ==> ZeroRun(p, j) == ZeroRun(p, i) - (j - i)
    decreases |p| - i
  {
    if ZeroRun(p, i) > 0 {
      ZeroRunInside(p, i + 1);
    }
  }

  /**
    The first longest run of zero pieces at or after `i` that is longer than
    `best.1`, or `best` if there is none: a maximal zero run, no run from a
    piece at or after `i` is longer, and every run starting before it is
    shorter.
   */
  function LongestZeroRun(p: seq<bv16>, i: nat, best: (nat, nat)): (r: (nat, nat))
    requires i <= |p| && best.0 + best.1 <= |p|
    ensures r.0 + r.1 <= |p|
    ensures r == best || (i <= r.0 && best.1 < r.1 && ZeroRun(p, r.0) == r.1)
    ensures forall j :: i <= j < |p| ==> ZeroRun(p, j) <= r.1
    ensures r != best ==> forall j :: i <= j < r.0 ==> ZeroRun(p, j) < r.1
    decreases |p| - i
  {
    if i == |p| then best
    else
      var n := ZeroRun(p, i);
      var best' := if n > best.1 then (i, n) else best;
      ZeroRunInside(p, i);
      LongestZeroRun(p, if n == 0 then i + 1 else i + n, best')
  }

  function HexPieces(p: seq<bv16>): (r: seq<string>)
    ensures |r| == |p|
  {
    if p == [] then [] else [Numeral(p[0] as int, 16)] + HexPieces(p[1..])
  }

  lemma {:induction false} HexPiecesAt(p: seq<bv16>, i: nat)
    requires i < |p|
    ensures HexPieces(p)[i] == Numeral(p[i] as int, 16)
  {
    if i > 0 {
      HexPiecesAt(p[1..], i - 1);
    }
  }

  function Ipv6Text(p: Ipv6Pieces): string
  {
    var hex := HexPieces(p);
    var (start, len) := LongestZeroRun(p, 0, (0, 1));
    if len > 1 then Join(hex[..start], ':') + "::" + Join(hex[start + len..], ':')
    else Join(hex, ':')
  }

  /**
    `format!("{}", host)`: a domain as it is, an IPv4 address starting and
    ending with a digit, an IPv6 address in brackets; so only a domain can
    give an empty text or one that starts or ends with `/`.
   */
  function HostText(h: Host): (r: string)
    ensures h.Domain? ==> r == h.name
    ensures h.Ipv4? ==> r != [] && '0' <= r[0] <= '9' && '0' <= r[|r| - 1] <= '9'
    ensures h.Ipv6? ==> |r| >= 2 && r[0] == '[' && r[|r| - 1] == ']'
  {
    match h
    case Domain(d) => d
    case Ipv4(a) => Ipv4Text(a)
    case Ipv6(p) => "[" + Ipv6Text(p) + "]"
  }

  /** The top labels of a two-label and of a three-label domain. */
  lemma TopLabelsOfLabels(x: string, y: string, z: string)
    requires '.' !in x && '.' !in y && '.' !in z
    ensures TopLabels(y + "." + z) == [z, y]
    ensures TopLabels(x + "." + y + "." + z) == [z, y]
    ensures Split(x + "." + y + "." + z, '.') == [x, y, z]
  {
    SplitTwoLabels(y, z);
    SplitThreeLabels(x, y, z);
  }

  lemma SplitTwoLabels(y: string, z: string)
    requires '.' !in y && '.' !in z
    ensures Split(y + "." + z, '.') == [y, z]
  {
    var two := [y, z];
    assert two[1..] == [z];
    SplitJoin(two, '.');
  }

  lemma SplitThreeLabels(x: string, y: string, z: string)
    requires '.' !in x && '.' !in y && '.' !in z
    ensures Split(x + "." + y + "." + z, '.') == [x, y, z]
  {
    var yz := y + "." + z;
    assert x + "." + y + "." + z == x + ['.'] + yz;
    SplitAppend(x, yz, '.');
    SplitTwoLabels(y, z);
    SplitJoin([x], '.');
  }

  /** Two different one-label subdomains of the same two-label parent are related. */
  lemma SiblingsRelated(x: string, y: string, p: string, q: string)
    requires '.' !in x && '.' !in y && '.' !in p && '.' !in q && x != y
    ensures CompareHosts(Domain(x + "." + p + "." + q), Domain(y + "." + p + "." + q)) == Related
  {
    TopLabelsOfLabels(x, p, q);
    TopLabelsOfLabels(y, p, q);
  }

  /** A one-label subdomain of a two-label domain is related to it. */
  lemma SubdomainRelated(x: string, y: string, z: string)
    requires '.' !in x && '.' !in y && '.' !in z
    ensures CompareHosts(Domain(x + "." + y + "." + z), Domain(y + "." + z)) == Related
  {
    TopLabelsOfLabels(x, y, z);
    assert |x + "." + y + "." + z| > |y + "." + z|;
  }

  /**
    Sibling subdomains are related. The names are parameters fixed by the
    precondition, which keeps the string literals small for the solver.
   */
  lemma SiblingSubdomainsRelated(a: string, b: string)
    requires a == "a.example.com" && b == "b.example.com"
    ensures CompareHosts(Domain(a), Domain(b)) == Related
  {
    ExampleSubdomain("a", a);
    ExampleSubdomain("b", b);
    SiblingsRelated("a", "b", "example", "com");
  }

  lemma ExampleSubdomain(x: string, d: string)
    requires |x| == 1 && d == x + ".example.com"
    ensures Domain(d) == Domain(x + "." + "example" + "." + "com")
  {
    assert x + "." + "example" + "." + "com" == x + ".example.com";
  }

  /** Different registrable domains are unrelated. */
  lemma DifferentDomainsUnrelated()
    ensures CompareHosts(Domain("a.com"), Domain("b.com")) == Unrelated
  {
    TopLabelsOfLabels("", "a", "com");
    TopLabelsOfLabels("", "b", "com");
    assert "a.com" == "a" + "." + "com" && "b.com" == "b" + "." + "com";
    assert TopLabels("a.com")[1] != TopLabels("b.com")[1];
  }

  /**
    The heuristic's known limitation with two-label public suffixes: two
    unrelated registrations under `co.uk` are called related.
   */
  lemma PublicSuffixLimitation()
    ensures CompareHosts(Domain("foo.co.uk"), Domain("bar.co.uk")) == Related
  {
    SiblingsRelated("foo", "bar", "co", "uk");
    assert "foo.co.uk" == "foo" + "." + "co" + "." + "uk";
    assert "bar.co.uk" == "bar" + "." + "co" + "." + "uk";
  }

  lemma ClassifierExamples()
    ensures CompareHosts(Domain("example.com"), Domain("example.com")) == Same
    ensures CompareHosts(Ipv4(0x0102_0304), Ipv4(0x0102_0304)) == Same
    ensures CompareHosts(Ipv4(0x0102_0304), Ipv4(0x0102_0305)) == Unrelated
    ensures CompareHosts(Domain("example.com"), Ipv4(0x0102_0304)) == Unrelated
  {
  }

  /**
    The IPv4 host 1.2.3.4 is written in dotted decimal. The address is a
    parameter fixed by the precondition, which keeps the literal out of the
    solver's unfolding of `HostText`; the IPv6 lemmas below do the same.
   */
  lemma HostTextExamples(a: bv32)
    requires a == 0x0102_0304
    ensures HostText(Ipv4(a)) == "1.2.3.4"
  {
    var n := a as int;
    assert n == 0x0102_0304;
    assert n / 0x100_0000 == 1 && n / 0x1_0000 % 256 == 2 && n / 0x100 % 256 == 3 && n % 256 == 4;
  }

  lemma LoopbackZeroRun(p: Ipv6Pieces)
    requires p == [0, 0, 0, 0, 0, 0, 0, 1]
    ensures LongestZeroRun(p, 0, (0, 1)) == (0, 7)
  {
    assert ZeroRun(p, 7) == 0;
    assert ZeroRun(p, 0) == 7 by {
      assert ZeroRun(p, 6) == 1;
      assert ZeroRun(p, 4) == 3;
      assert ZeroRun(p, 2) == 5;
    }
    assert LongestZeroRun(p, 0, (0, 1)) == LongestZeroRun(p, 7, (0, 7));
  }

  lemma Ipv6TextLastPieceOnly(p: Ipv6Pieces)
    requires LongestZeroRun(p, 0, (0, 1)) == (0, 7) && p[7] == 1
    ensures Ipv6Text(p) == "::1"
  {
    var hex := HexPieces(p);
    HexPiecesAt(p, 7);
    assert hex[7..] == [hex[7]];
  }

  /** The loopback address: seven leading zero pieces collapse to `::`. */
  lemma Ipv6LoopbackText(p: Ipv6Pieces)
    requires p == [0, 0, 0, 0, 0, 0, 0, 1]
    ensures HostText(Ipv6(p)) == "[::1]"
  {
    LoopbackZeroRun(p);
    Ipv6TextLastPieceOnly(p);
    assert HostText(Ipv6(p)) == "[" + "::1" + "]";
  }
}
