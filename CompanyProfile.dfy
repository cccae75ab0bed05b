/** The company profile header, src/components/CompanyProfile.tsx: the domain shown to the
    logo service is the website with a leading `http://` or `https://` (and a `www.` right
    after it) removed, cut before the first `/`. */
module CompanyProfile {
  import opened Strings

  /** `replace(/^https?:\/\/(www\.)?/, '')`: the number of leading characters the pattern
      removes. The pattern is case-sensitive, and `www.` is removed only after a scheme. */
  function SchemeLength(w: string): (n: nat)
    ensures n <= |w|
    ensures n == 0 || n == 7 || n == 8 || n == 11 || n == 12
    ensures n > 0 <==> "http://" <= w || "https://" <= w
  {
    if "https://" <= w then 8 + WwwLength(w[8..])
    else if "http://" <= w then 7 + WwwLength(w[7..])
    else 0
  }

  function WwwLength(t: string): (n: nat)
    ensures n <= |t| && (n == 0 || n == 4)
  {
    if "www." <= t then 4 else 0
  }

  /** `website.replace(...).split('/')[0]`. */
  function Domain(w: string): string {
    Split(w[SchemeLength(w)..], '/')[0]
  }

  /** The domain is the block of the website that starts right after the removed prefix and
      stops at the first `/` after it, or at the end; it holds no `/`. */
  lemma DomainShape(w: string)
    ensures var k, d := SchemeLength(w), Domain(w);
      k + |d| <= |w| && w[k..k + |d|] == d && '/' !in d
      && (k + |d| < |w| ==> w[k + |d|] == '/')
  {
    var k := SchemeLength(w);
    SplitHead(w[k..], '/');
  }

  /** Without a scheme nothing is removed, so a website written `www.x.com` keeps its
      `www.`. */
  lemma WwwKeptWithoutScheme(w: string)
    requires !("http://" <= w) && !("https://" <= w)
    requires "www." <= w
    ensures "www." <= Domain(w)
  {
    SplitHead(w, '/');
    assert w[0..] == w;
    assert forall i :: 0 <= i < 4 ==> w[i] != '/';
  }

  /** After a scheme, the `www.` is removed too. */
  lemma WwwRemovedAfterScheme(rest: string)
    requires '/' !in rest
    ensures Domain("https://www." + rest) == rest
    ensures Domain("http://www." + rest) == rest
  {
    var a, b := "https://www." + rest, "http://www." + rest;
    assert "https://" <= a && a[8..] == "www." + rest && "www." <= a[8..] && a[12..] == rest;
    assert b[4] != "https://"[4];
    assert "http://" <= b && b[7..] == "www." + rest && "www." <= b[7..] && b[11..] == rest;
    SplitNone(rest, '/');
  }

  /** Extracting the domain of a domain changes nothing. */
  lemma DomainIdempotent(w: string)
    ensures Domain(Domain(w)) == Domain(w)
  {
    var d := Domain(w);
    DomainShape(w);
    assert !("http://" <= d) by {
      if |d| >= 7 { assert d[..7][6] == d[6] != '/'; }
    }
    assert !("https://" <= d) by {
      if |d| >= 8 { assert d[..8][7] == d[7] != '/'; }
    }
    assert d[0..] == d;
    SplitNone(d, '/');
  }

  const LogoService: string := "https://logo.clearbit.com/"

  function LogoUrl(w: string): string {
    LogoService + Domain(w)
  }

  lemma LogoUrlJoin(d: string)
    ensures Join(["https:", "", "logo.clearbit.com", d], "/") == LogoService + d
  {
    var parts := ["https:", "", "logo.clearbit.com", d];
    assert parts[1..][1..] == ["logo.clearbit.com", d];
    assert Join(parts[1..][1..], "/") == "logo.clearbit.com" + "/" + d;
    assert parts[1..] == ["", "logo.clearbit.com", d];
    assert Join(parts[1..], "/") == "" + "/" + ("logo.clearbit.com" + "/" + d);
  }

  /** The logo address has exactly one path segment after the service host, and that
      segment is the domain. */
  lemma LogoUrlSegments(w: string)
    ensures Split(LogoUrl(w), '/') == ["https:", "", "logo.clearbit.com", Domain(w)]
  {
    var d := Domain(w);
    DomainShape(w);
    LogoUrlJoin(d);
    var parts := ["https:", "", "logo.clearbit.com", d];
    assert '/' !in parts[0] && '/' !in parts[1] && '/' !in parts[2] && '/' !in parts[3];
    SplitJoin(parts, '/');
  }
}
