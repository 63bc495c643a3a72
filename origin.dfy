/** Whether a URL belongs to the local development family of hosts, the
    rule that decides when an automatic transfer starts. */
module Origin {
  import opened Browser
  import opened Text

  /** The four-way hostname rule, on an already lower-cased hostname. */
  predicate IsLocalHostname(h: string) {
    h == "localhost" || h == "127.0.0.1" || EndsWith(h, ".localhost") || StartsWith(h, "localhost.")
  }

  /** The first and last dot-separated labels of a hostname. */
  function FirstLabel(h: string): string {
    Split(h, '.')[0]
  }

  function LastLabel(h: string): string {
    var labels := Split(h, '.');
    labels[|labels| - 1]
  }

  /** A separator-free prefix that ends at a separator or at the end of
      the string is unique. */
  lemma SameLeadingLabel(h: string, p: string, q: string, sep: char)
    requires |p| <= |h| && h[..|p|] == p && sep !in p && (|p| == |h| || h[|p|] == sep)
    requires |q| <= |h| && h[..|q|] == q && sep !in q && (|q| == |h| || h[|q|] == sep)
    ensures p == q
  {
  }

  /** A separator-free suffix that starts after a separator or at the start
      of the string is unique. */
  lemma SameTrailingLabel(h: string, p: string, q: string, sep: char)
    requires |p| <= |h| && h[|h| - |p|..] == p && sep !in p && (|p| == |h| || h[|h| - |p| - 1] == sep)
    requires |q| <= |h| && h[|h| - |q|..] == q && sep !in q && (|q| == |h| || h[|h| - |q| - 1] == sep)
    ensures p == q
  {
  }

  /** The first label is `localhost` exactly when the hostname is
      `localhost` or starts with `localhost.`. */
  lemma FirstLabelRule(h: string)
    ensures FirstLabel(h) == "localhost" <==> h == "localhost" || StartsWith(h, "localhost.")
  {
    var p := FirstLabel(h);
    SplitFirst(h, '.');
    assert '.' !in p;
    if p == "localhost" && |h| > 9 {
      assert h[..10] == h[..9] + [h[9]];
    }
    if StartsWith(h, "localhost.") {
      assert h[..9] == h[..10][..9];
      SameLeadingLabel(h, p, "localhost", '.');
    } else if h == "localhost" {
      SameLeadingLabel(h, p, "localhost", '.');
    }
  }

  /** The last label is `localhost` exactly when the hostname is
      `localhost` or ends with `.localhost`. */
  lemma LastLabelRule(h: string)
    ensures LastLabel(h) == "localhost" <==> h == "localhost" || EndsWith(h, ".localhost")
  {
    if LastLabel(h) == "localhost" {
      LocalFromLastLabel(h);
    }
    if EndsWith(h, ".localhost") {
      LastLabelOfSubdomain(h);
    } else if h == "localhost" {
      SplitLast(h, '.');
      assert '.' !in LastLabel(h);
      SameTrailingLabel(h, LastLabel(h), "localhost", '.');
    }
  }

  lemma LocalFromLastLabel(h: string)
    requires LastLabel(h) == "localhost"
    ensures h == "localhost" || EndsWith(h, ".localhost")
  {
    SplitLast(h, '.');
    var n := |h|;
    assert h[n - 9..] == "localhost";
    if n > 9 {
      assert h[n - 10..] == [h[n - 10]] + h[n - 9..];
    }
  }

  lemma LastLabelOfSubdomain(h: string)
    requires EndsWith(h, ".localhost")
    ensures LastLabel(h) == "localhost"
  {
    SplitLast(h, '.');
    var p := LastLabel(h);
    assert '.' !in p;
    var n := |h|;
    var tail := h[n - 10..];
    assert tail == ".localhost";
    assert h[n - 9..] == tail[1..] == "localhost";
    assert h[n - 10] == tail[0] == '.';
    SameTrailingLabel(h, p, "localhost", '.');
  }

  /** The four-way rule read label by label: a hostname is local when it
      is the loopback address, or its first or its last label is
      `localhost`. */
  lemma LabelReading(h: string)
    ensures IsLocalHostname(h) <==> h == "127.0.0.1" || FirstLabel(h) == "localhost" || LastLabel(h) == "localhost"
  {
    FirstLabelRule(h);
    LastLabelRule(h);
  }

  /** `isLocalhostUrl(url)`: a URL that does not parse is not local; a parsed
      one is local when its lower-cased hostname is the loopback address or
      has `localhost` as its first or last label. */
  function IsLocalhostUrl(url: ParsedUrl): (r: bool)
    ensures url.Malformed? ==> !r
    ensures url.Url? ==>
      var h := Lower(url.hostname);
      (r <==> h == "127.0.0.1" || FirstLabel(h) == "localhost" || LastLabel(h) == "localhost")
  {
    match url
    case Malformed(_) => false
    case Url(_, hostname) =>
      LabelReading(Lower(hostname));
      IsLocalHostname(Lower(hostname))
  }

  /** Every hostname that begins with `localhost.` is local, whatever
      follows: `localhost.example.com` included. */
  lemma LocalhostDotPrefix(protocol: string, rest: string)
    ensures IsLocalhostUrl(Url(protocol, "localhost." + rest))
  {
    var prefix := "localhost.";
    LowerConcat(prefix, rest);
    assert forall i :: 0 <= i < |prefix| ==> !('A' <= prefix[i] <= 'Z');
    assert Lower(prefix) == prefix;
    assert (prefix + Lower(rest))[..10] == prefix;
  }

  /** The rule ignores the case of the hostname. */
  lemma CaseInsensitive(protocol: string, hostname: string)
    ensures IsLocalhostUrl(Url(protocol, hostname)) == IsLocalhostUrl(Url(protocol, Lower(hostname)))
  {
    LowerIdempotent(hostname);
  }
}
