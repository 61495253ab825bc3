/** The image-link pattern of the course API (`httpLinkPattern`):

      ^(http://www\.|https://www\.|http://|https://)
       [a-zA-Z0-9]+([-.]{1}[a-zA-Z0-9]+)*\.[a-zA-Z]{2,5}
       (:[0-9]{1,5})?(/.*)?$

    `MatchesLinkPattern` is the regular expression read as a language: a string
    matches when SOME split of it into scheme, host, dot, top-level domain,
    port and path fits the pieces. `ParseLink` is a deterministic matcher that
    cuts the string at fixed places instead of searching; the two are proved
    to agree in `ParseLinkMatchesPattern`. */
module LinkPattern {
  import opened Wrappers
  import opened JsString

  predicate IsLetter(c: char) { 'a' <= c <= 'z' || 'A' <= c <= 'Z' }
  predicate IsDigit(c: char) { '0' <= c <= '9' }
  predicate IsAlnum(c: char) { IsLetter(c) || IsDigit(c) }
  /** `[\-\.]` */
  predicate IsSeparator(c: char) { c == '-' || c == '.' }
  /** The characters that `.` in a JavaScript regular expression does not match. */
  predicate IsLineTerminator(c: char) {
    c == '\n' || c == '\r' || c == '\U{2028}' || c == '\U{2029}'
  }

  // ---------------------------------------------------------------------------
  // The pattern as a language

  const Schemes: seq<string> := ["http://www.", "https://www.", "http://", "https://"]

  /** `[a-zA-Z0-9]+` */
  predicate IsLabel(s: string) {
    |s| >= 1 && forall i :: 0 <= i < |s| ==> IsAlnum(s[i])
  }

  /** `[a-zA-Z0-9]+([\-\.]{1}[a-zA-Z0-9]+)*`: a label, or a label, one
      separator and again such a host. */
  ghost predicate IsHost(h: string)
    decreases |h|
  {
    IsLabel(h) ||
    exists m :: 0 < m < |h| && IsLabel(h[..m]) && IsSeparator(h[m]) && IsHost(h[m + 1..])
  }

  /** `[a-zA-Z]{2,5}` */
  predicate IsTld(t: string) {
    2 <= |t| <= 5 && forall i :: 0 <= i < |t| ==> IsLetter(t[i])
  }

  /** `(:[0-9]{1,5})?` */
  predicate IsPort(p: string) {
    p == [] || (p[0] == ':' && 2 <= |p| <= 6 && forall i :: 1 <= i < |p| ==> IsDigit(p[i]))
  }

  /** `(\/.*)?` followed by `$` */
  predicate IsPath(p: string) {
    p == [] || (p[0] == '/' && forall i :: 1 <= i < |p| ==> !IsLineTerminator(p[i]))
  }

  /** The pieces of a link: `scheme host . tld port path`. */
  datatype LinkParts = LinkParts(scheme: string, host: string, tld: string, port: string, path: string)

  function Render(p: LinkParts): string {
    p.scheme + p.host + "." + p.tld + p.port + p.path
  }

  /** Each piece fits its part of the pattern. */
  ghost predicate FitsPattern(p: LinkParts) {
    p.scheme in Schemes && IsHost(p.host) && IsTld(p.tld) && IsPort(p.port) && IsPath(p.path)
  }

  /** `httpLinkPattern.test(s)`: `s` can be split into pieces that fit. */
  ghost predicate MatchesLinkPattern(s: string) {
    exists p :: FitsPattern(p) && Render(p) == s
  }

  // ---------------------------------------------------------------------------
  // A deterministic matcher

  /** Number of alphanumeric characters at the start of `s`. */
  function LabelRun(s: string): (r: nat)
    ensures r <= |s|
    ensures forall i :: 0 <= i < r ==> IsAlnum(s[i])
    ensures r < |s| ==> !IsAlnum(s[r])
  {
    if s != [] && IsAlnum(s[0]) then 1 + LabelRun(s[1..]) else 0
  }

  /** Scans a host: the longest run of alphanumerics, then either the end or
      one separator and another host. */
  predicate HostOk(h: string)
    decreases |h|
  {
    var k := LabelRun(h);
    0 < k && (k == |h| || (IsSeparator(h[k]) && HostOk(h[k + 1..])))
  }

  /** What `ParseLink` returns: a scheme without `www.` (that is read as part
      of the host) and pieces that each fit the pattern. */
  predicate WellFormed(p: LinkParts) {
    (p.scheme == "http://" || p.scheme == "https://") &&
    HostOk(p.host) && IsTld(p.tld) && IsPort(p.port) && IsPath(p.path)
  }

  /** Length of the `http://` or `https://` that starts `s`, or 0. */
  function SchemeLength(s: string): (n: nat)
    ensures (n == 0 || n == 7 || n == 8) && n <= |s|
    ensures n == 7 ==> s[..n] == "http://"
    ensures n == 8 ==> s[..n] == "https://"
    ensures n == 0 ==> !HasPrefix(s, "http://") && !HasPrefix(s, "https://")
  {
    if HasPrefix(s, "http://") then 7 else if HasPrefix(s, "https://") then 8 else 0
  }

  /** Cuts `s` before the first `c`: the second part is empty or starts with `c`. */
  function CutFirst(s: string, c: char): (r: (string, string))
    ensures r.0 + r.1 == s
    ensures c !in r.0 && (r.1 == [] || r.1[0] == c)
  {
    var k := IndexOf(s, c);
    assert s[..k] + s[k..] == s;
    (s[..k], s[k..])
  }

  /** Cuts `s` around its last `c`, if it has one. */
  function CutLast(s: string, c: char): (r: Option<(string, string)>)
    ensures r.Some? ==> r.value.0 + [c] + r.value.1 == s && c !in r.value.1
    ensures r.None? ==> c !in s
  {
    var k := LastIndexOf(s, c);
    if k < 0 then None
    else
      assert s[..k] + [c] + s[k + 1..] == s;
      Some((s[..k], s[k + 1..]))
  }

  /** Cuts the part between the scheme and the path at the first `:` (the
      port) and at the last `.` before it (the top-level domain), then checks
      the three pieces. */
  function ParseAuthority(authority: string): (r: Option<(string, string, string)>)
    ensures r.Some? ==> r.value.0 + "." + r.value.1 + r.value.2 == authority
    ensures r.Some? ==> HostOk(r.value.0) && IsTld(r.value.1) && IsPort(r.value.2)
  {
    var (hostTld, port) := CutFirst(authority, ':');
    match CutLast(hostTld, '.')
    case None => None
    case Some((host, tld)) =>
      if HostOk(host) && IsTld(tld) && IsPort(port) then
        assert host + "." + tld == hostTld;
        Some((host, tld, port))
      else None
  }

  /** Cuts the link after the scheme and at the first `/` (the path), then
      parses the authority in between. */
  function ParseLink(s: string): (r: Option<LinkParts>)
    ensures r.Some? ==> WellFormed(r.value) && Render(r.value) == s
  {
    var n := SchemeLength(s);
    if n == 0 then None
    else
      var cut := CutFirst(s[n..], '/');
      var pieces := ParseAuthority(cut.0);
      if pieces.Some? && IsPath(cut.1) then
        var p := LinkParts(s[..n], pieces.value.0, pieces.value.1, pieces.value.2, cut.1);
        assert Render(p) == s by {
          RenderJoins(p, cut.0);
          assert s[..n] + s[n..] == s;
        }
        Some(p)
      else None
  }

  lemma Assoc(a: string, b: string, c: string)
    ensures a + (b + c) == (a + b) + c
  {
  }

  /** A rendered link is its scheme, then its authority, then its path. */
  lemma RenderJoins(p: LinkParts, authority: string)
    requires p.host + "." + p.tld + p.port == authority
    ensures Render(p) == p.scheme + (authority + p.path)
  {
    var x := p.host + ".";
    Assoc(p.scheme, p.host, ".");
    Assoc(p.scheme, x, p.tld);
    Assoc(p.scheme, x + p.tld, p.port);
    Assoc(p.scheme, authority, p.path);
  }

  /** `httpLinkPattern.test(s)`: true exactly for the strings the regular
      expression matches. */
  function MatchLink(s: string): (b: bool)
    ensures b <==> MatchesLinkPattern(s)
  {
    ParseLinkMatchesPattern(s);
    ParseLink(s).Some?
  }

  // ---------------------------------------------------------------------------
  // The matcher and the pattern agree

  /** The scanner accepts exactly the hosts of the pattern. */
  lemma HostOkIffIsHost(h: string)
    ensures HostOk(h) <==> IsHost(h)
  {
    if HostOk(h) { HostOkIsHost(h); }
    if IsHost(h) { IsHostHostOk(h); }
  }

  lemma {:induction false} HostOkIsHost(h: string)
    requires HostOk(h)
    ensures IsHost(h)
    decreases |h|
  {
    var k := LabelRun(h);
    var run := h[..k];
    assert forall i :: 0 <= i < k ==> run[i] == h[i];
    assert IsLabel(run);
    if k < |h| {
      HostOkIsHost(h[k + 1..]);
      assert 0 < k < |h| && IsLabel(h[..k]) && IsSeparator(h[k]) && IsHost(h[k + 1..]);
    } else {
      assert run == h;
    }
  }

  lemma {:induction false} IsHostHostOk(h: string)
    requires IsHost(h)
    ensures HostOk(h)
    decreases |h|
  {
    var k := LabelRun(h);
    if IsLabel(h) {
      assert k == |h|;
    } else {
      var m :| 0 < m < |h| && IsLabel(h[..m]) && IsSeparator(h[m]) && IsHost(h[m + 1..]);
      var run := h[..m];
      assert forall i :: 0 <= i < m ==> IsAlnum(h[i]) by {
        forall i | 0 <= i < m ensures IsAlnum(h[i]) {
          assert run[i] == h[i];
        }
      }
      assert k == m;
      IsHostHostOk(h[m + 1..]);
    }
  }

  /** Every character of a scanned host is alphanumeric or a separator, and it
      starts and ends with an alphanumeric. */
  lemma {:induction false} HostChars(h: string)
    requires HostOk(h)
    ensures forall i :: 0 <= i < |h| ==> IsAlnum(h[i]) || IsSeparator(h[i])
    ensures IsAlnum(h[0]) && IsAlnum(h[|h| - 1])
    decreases |h|
  {
    var k := LabelRun(h);
    if k < |h| {
      HostChars(h[k + 1..]);
      forall i | k < i < |h| ensures IsAlnum(h[i]) || IsSeparator(h[i]) {
        assert h[i] == h[k + 1..][i - k - 1];
      }
      assert h[|h| - 1] == h[k + 1..][|h| - k - 2];
    }
  }

  lemma IndexOfAt(s: string, c: char, k: nat)
    requires k <= |s| && (k < |s| ==> s[k] == c)
    requires forall i :: 0 <= i < k ==> s[i] != c
    ensures IndexOf(s, c) == k
  {
  }

  lemma LastIndexOfAt(s: string, c: char, k: nat)
    requires k < |s| && s[k] == c
    requires forall i :: k < i < |s| ==> s[i] != c
    ensures LastIndexOf(s, c) == k
  {
  }

  /** `CutFirst` cuts right after a prefix that lacks the character. */
  lemma CutFirstAt(x: string, y: string, c: char)
    requires c !in x
    requires y == [] || y[0] == c
    ensures CutFirst(x + y, c) == (x, y)
  {
    var s := x + y;
    forall i | 0 <= i < |x| ensures s[i] != c {
      assert s[i] == x[i];
    }
    IndexOfAt(s, c, |x|);
    assert s[..|x|] == x && s[|x|..] == y;
  }

  /** `CutLast` cuts around a character whose suffix lacks it. */
  lemma CutLastAt(x: string, y: string, c: char)
    requires c !in y
    ensures CutLast(x + [c] + y, c) == Some((x, y))
  {
    var s := x + [c] + y;
    forall i | |x| < i < |s| ensures s[i] != c {
      assert s[i] == y[i - |x| - 1];
    }
    LastIndexOfAt(s, c, |x|);
    assert s[..|x|] == x && s[|x| + 1..] == y;
  }

  /** The characters at which `ParseLink` cuts do not occur inside the pieces
      that come before the cut. */
  lemma PiecesAvoidCuts(p: LinkParts)
    requires WellFormed(p)
    ensures '/' !in p.host + "." + p.tld + p.port
    ensures ':' !in p.host + "." + p.tld
    ensures '.' !in p.tld
  {
    HostChars(p.host);
    forall i | 0 <= i < |p.host| ensures p.host[i] != '/' && p.host[i] != ':' {
      assert IsAlnum(p.host[i]) || IsSeparator(p.host[i]);
    }
    forall i | 0 <= i < |p.tld| ensures p.tld[i] != '/' && p.tld[i] != ':' && p.tld[i] != '.' {
      assert IsLetter(p.tld[i]);
    }
    forall i | 0 <= i < |p.port| ensures p.port[i] != '/' {
      if i > 0 { assert IsDigit(p.port[i]); }
    }
  }

  /** Pieces that `ParseLink` would cut exactly where they join. */
  predicate Cuttable(p: LinkParts) {
    (p.scheme == "http://" || p.scheme == "https://") &&
    '/' !in p.host + "." + p.tld + p.port && ':' !in p.host + "." + p.tld && '.' !in p.tld &&
    (p.port == [] || p.port[0] == ':') && (p.path == [] || p.path[0] == '/')
  }

  /** `ParseLink` recovers cuttable pieces and then accepts them exactly when
      each fits. */
  lemma ParseCuts(p: LinkParts)
    requires Cuttable(p)
    ensures ParseLink(Render(p)) ==
            if HostOk(p.host) && IsTld(p.tld) && IsPort(p.port) && IsPath(p.path) then Some(p) else None
  {
    var s := Render(p);
    var hostTld := p.host + "." + p.tld;
    var authority := hostTld + p.port;
    var n := |p.scheme|;
    RenderJoins(p, authority);
    if p.scheme == "http://" {
      assert HasPrefix(s, "http://");
    } else {
      assert s[..7][4] == 's';
      assert HasPrefix(s, "https://");
    }
    assert SchemeLength(s) == n;
    assert s[..n] == p.scheme && s[n..] == authority + p.path;
    CutFirstAt(authority, p.path, '/');
    CutFirstAt(hostTld, p.port, ':');
    CutLastAt(p.host, p.tld, '.');
  }

  /** Parsing undoes rendering: every well-formed link parses back into its
      own pieces. */
  lemma ParseRender(p: LinkParts)
    requires WellFormed(p)
    ensures ParseLink(Render(p)) == Some(p)
  {
    PiecesAvoidCuts(p);
    ParseCuts(p);
  }

  /** The deterministic parser accepts exactly the strings the regular
      expression matches. */
  lemma ParseLinkMatchesPattern(s: string)
    ensures ParseLink(s).Some? <==> MatchesLinkPattern(s)
  {
    if ParseLink(s).Some? {
      var p := ParseLink(s).value;
      HostOkIffIsHost(p.host);
      assert FitsPattern(p);
    }
    if MatchesLinkPattern(s) {
      var p :| FitsPattern(p) && Render(p) == s;
      PatternParsed(p);
    }
  }

  /** Whatever fits the pattern is parsed. */
  lemma PatternParsed(p: LinkParts)
    requires FitsPattern(p)
    ensures ParseLink(Render(p)).Some?
  {
    HostOkIffIsHost(p.host);
    if p.scheme == "http://www." || p.scheme == "https://www." {
      var q := FoldWww(p);
      ParseRender(q);
    } else {
      ParseRender(p);
    }
  }

  /** The alternatives `http://www.` and `https://www.` of the pattern add
      nothing: their `www.` can be read as the first label of the host. */
  lemma FoldWww(p: LinkParts) returns (q: LinkParts)
    requires p.scheme == "http://www." || p.scheme == "https://www."
    requires HostOk(p.host) && IsTld(p.tld) && IsPort(p.port) && IsPath(p.path)
    ensures WellFormed(q) && Render(q) == Render(p)
  {
    var short := p.scheme[..|p.scheme| - 4];
    assert p.scheme == short + "www.";
    q := p.(scheme := short, host := "www." + p.host);
    WwwHost(p.host);
    var rest := p.host + "." + p.tld + p.port;
    RenderJoins(p, rest);
    assert q.host + "." + q.tld + q.port == "www." + rest by {
      Assoc("www.", p.host, ".");
      Assoc("www.", p.host + ".", p.tld);
      Assoc("www.", p.host + "." + p.tld, p.port);
    }
    RenderJoins(q, "www." + rest);
    Assoc("www.", rest, p.path);
    Assoc(short, "www.", rest + p.path);
  }

  /** Prefixing a host with the label `www` and a dot keeps it a host. */
  lemma WwwHost(h: string)
    requires HostOk(h)
    ensures HostOk("www." + h)
  {
    var w := "www." + h;
    HostChars(h);
    assert w[4..] == h;
    assert LabelRun(w[3..]) == 0;
    assert LabelRun(w) == 3;
  }

  // ---------------------------------------------------------------------------
  // What a matching link looks like

  /** A matching link starts with `http://` or `https://` (so it is never
      blank and never starts with a space), and it is its parsed pieces put
      back together: a host of labels, a dot, a 2-5 letter top-level domain,
      a port of 1-5 digits if any, and a path starting with `/` if any. */
  lemma MatchedLinkShape(s: string)
    requires MatchesLinkPattern(s)
    ensures HasPrefix(s, "http://") || HasPrefix(s, "https://")
    ensures ParseLink(s).Some? && Render(ParseLink(s).value) == s
    ensures var p := ParseLink(s).value;
            IsAlnum(p.host[0]) && 2 <= |p.tld| <= 5 && (p.port == [] || 2 <= |p.port| <= 6)
  {
    ParseLinkMatchesPattern(s);
    HostChars(ParseLink(s).value.host);
  }

  /** A host needs a dot and a top-level domain: a single label after the
      scheme, such as `http://localhost`, is refused. */
  lemma SingleLabelRejected(scheme: string, name: string)
    requires scheme == "http://" || scheme == "https://"
    requires IsLabel(name)
    ensures !MatchesLinkPattern(scheme + name)
  {
    var s := scheme + name;
    assert SchemeLength(s) == |scheme| && s[|scheme|..] == name by {
      if scheme == "http://" {
        assert HasPrefix(s, "http://");
      } else {
        assert s[..7][4] == 's';
        assert HasPrefix(s, "https://");
      }
    }
    assert ParseLink(s) == None by {
      forall i | 0 <= i < |name| ensures name[i] != '/' && name[i] != ':' && name[i] != '.' {
        assert IsAlnum(name[i]);
      }
      CutFirstAt(name, [], '/');
      CutFirstAt(name, [], ':');
    }
    ParseLinkMatchesPattern(s);
  }

  lemma LocalhostRejected()
    ensures !MatchesLinkPattern("http://localhost")
  {
    assert IsLabel("localhost");
    SingleLabelRejected("http://", "localhost");
    assert "http://" + "localhost" == "http://localhost";
  }

  /** A port has at most five digits: `http://a.com:123456` is refused. */
  lemma SixDigitPortRejected()
    ensures !MatchesLinkPattern("http://a.com:123456")
  {
    var p := SixDigitPortLink();
    ParseCuts(p);
    ParseLinkMatchesPattern(Render(p));
  }

  /** The pieces of `http://a.com:123456`, which only the port spoils. */
  lemma SixDigitPortLink() returns (p: LinkParts)
    ensures Cuttable(p) && HostOk(p.host) && IsTld(p.tld) && !IsPort(p.port)
    ensures Render(p) == "http://a.com:123456"
  {
    p := LinkParts("http://", "a", "com", ":123456", "");
    assert p.host + "." + p.tld + p.port == "a.com:123456";
    assert p.host + "." + p.tld == "a.com";
  }

  /** Anything may follow the first `/`: `https://example.com/x?y` matches. */
  lemma QueryPathAccepted()
    ensures MatchesLinkPattern("https://example.com/x?y")
  {
    var p := LinkParts("https://", "example", "com", "", "/x?y");
    assert IsLabel(p.host);
    assert IsHost(p.host);
    assert p.scheme in Schemes;
    assert IsTld(p.tld);
    assert IsPath(p.path);
    assert FitsPattern(p);
    assert Render(p) == "https://example.com/x?y";
  }

  /** The pattern is anchored: a leading space makes a link fail. */
  lemma LeadingSpaceRejected(s: string)
    ensures !MatchesLinkPattern(" " + s)
  {
    ParseLinkMatchesPattern(" " + s);
    assert SchemeLength(" " + s) == 0 by {
      assert (" " + s)[0] == ' ';
    }
  }
}
