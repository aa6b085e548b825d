/**
 What the URL clean-up is for: repeated "http://" schemes become one, behind either
 scheme, and the rest of the URL stays.
 */
module SchemeRepair {
  import opened Wrappers
  import opened Strings
  import opened UrlNormalizer

  /** "http://" so many times. */
  function Repeated(k: nat): string { if k == 0 then "" else HTTP + Repeated(k - 1) }

  /** A rest of a URL that brings no scheme, no double slash and no blank at its end. */
  predicate Plain(rest: string) {
    && !Contains(rest, SLASHES)
    && (rest != "" ==> !IsSpace(rest[|rest| - 1]))
  }

  lemma PlainAt(rest: string, k: nat)
    requires Plain(rest)
    ensures !OccursAt(rest, SLASHES, k) && !OccursAt(rest, SEPARATOR, k)
  {
    FindIsFirst(rest, SLASHES);
    SlashesAt(rest, k);
    SlashesAt(rest, k + 1);
    SeparatorAt(rest, k);
  }

  lemma {:induction false} NoOccurrence(s: string, old': string, new': string)
    requires old' != "" && forall k: nat :: !OccursAt(s, old', k)
    ensures ReplaceAll(s, old', new') == s && !Contains(s, old')
  {
    FindIsFirst(s, old');
    if |s| >= |old'| {
      assert s[0..|old'|] == s[..|old'|];
      assert !OccursAt(s, old', 0);
      forall k: nat ensures !OccursAt(s[1..], old', k) {
        if k + |old'| <= |s[1..]| { assert s[1..][k..k + |old'|] == s[k + 1..k + 1 + |old'|]; }
        assert !OccursAt(s, old', k + 1);
      }
      NoOccurrence(s[1..], old', new');
    }
  }

  /** The separators of a scheme and a plain rest: the scheme's own. */
  lemma OneSeparator(scheme: string, rest: string, k: nat)
    requires scheme in {HTTP, HTTPS} && Plain(rest)
    ensures OccursAt(scheme + rest, SEPARATOR, k) <==> k == |scheme| - 3
  {
    var u := scheme + rest;
    SeparatorAt(u, k);
    if k >= |scheme| {
      PlainAt(rest, k - |scheme|);
      SeparatorAt(rest, k - |scheme|);
    }
  }

  lemma NotRepeated(scheme: string, rest: string, k: nat)
    requires scheme in {HTTP, HTTPS} && Plain(rest)
    ensures !OccursAt(scheme + rest, HTTP_HTTP, k) && !OccursAt(scheme + rest, HTTPS_HTTP, k)
  {
    SchemePatternHasTwoSeparators(scheme + rest, k);
    OneSeparator(scheme, rest, k + 4);
    OneSeparator(scheme, rest, k + 11);
    OneSeparator(scheme, rest, k + 5);
    OneSeparator(scheme, rest, k + 12);
  }

  lemma PlainIsNotRepeated(rest: string, k: nat)
    requires Plain(rest)
    ensures !OccursAt(rest, HTTP_HTTP, k) && !OccursAt(rest, HTTPS_HTTP, k)
  {
    SchemePatternHasTwoSeparators(rest, k);
    PlainAt(rest, k + 4);
    PlainAt(rest, k + 5);
  }

  /** One pass halves the number of schemes. */
  lemma {:induction false} PassHalves(k: nat, rest: string)
    requires Plain(rest)
    ensures ReplaceAll(Repeated(k) + rest, HTTP_HTTP, HTTP) == Repeated((k + 1) / 2) + rest
  {
    if k == 0 {
      assert Repeated(0) + rest == rest;
      forall i: nat ensures !OccursAt(rest, HTTP_HTTP, i) { PlainIsNotRepeated(rest, i); }
      hide *;
      NoOccurrence(rest, HTTP_HTTP, HTTP);
    } else if k == 1 {
      OneScheme();
      forall i: nat ensures !OccursAt(HTTP + rest, HTTP_HTTP, i) { NotRepeated(HTTP, rest, i); }
      hide *;
      NoOccurrence(HTTP + rest, HTTP_HTTP, HTTP);
    } else {
      hide *;
      PassHalves(k - 2, rest);
      TwoSchemes(k, rest);
      OneMoreScheme((k - 1) / 2, rest);
      ReplaceFront(HTTP_HTTP, HTTP, Repeated(k - 2) + rest);
    }
  }

  lemma OneScheme()
    ensures Repeated(1) == HTTP
  {
    assert Repeated(1) == HTTP + Repeated(0);
  }

  lemma OneMoreScheme(k: nat, rest: string)
    ensures HTTP + (Repeated(k) + rest) == Repeated(k + 1) + rest
  {
  }

  lemma TwoSchemes(k: nat, rest: string)
    requires k >= 2
    ensures Repeated(k) + rest == HTTP_HTTP + (Repeated(k - 2) + rest)
  {
    assert Repeated(k) == HTTP + Repeated(k - 1) && Repeated(k - 1) == HTTP + Repeated(k - 2);
    assert HTTP + HTTP == HTTP_HTTP;
  }

  lemma ReplaceFront(old': string, new': string, tail: string)
    requires old' != ""
    ensures ReplaceAll(old' + tail, old', new') == new' + ReplaceAll(tail, old', new')
  {
    assert (old' + tail)[..|old'|] == old' && (old' + tail)[|old'|..] == tail;
  }

  /** A pass leaves "https://" before the rest of the work alone. */
  lemma SkipHttps(tail: string)
    ensures ReplaceAll(HTTPS + tail, HTTP_HTTP, HTTP) == HTTPS + ReplaceAll(tail, HTTP_HTTP, HTTP)
  {
    SkipChars(HTTPS, tail);
  }

  lemma {:induction false} SkipChars(front: string, tail: string)
    requires |front| <= 8 && front == HTTPS[8 - |front|..]
    ensures ReplaceAll(front + tail, HTTP_HTTP, HTTP) == front + ReplaceAll(tail, HTTP_HTTP, HTTP)
  {
    hide ReplaceAll;
    var s := front + tail;
    if front == "" {
      assert s == tail;
    } else {
      var less := front[1..];
      assert less == HTTPS[8 - |less|..] && s[1..] == less + tail;
      SkipChars(less, tail);
      if |s| < 14 {
        Short(s);
        Short(tail);
      } else {
        NoMatchInside(front, tail);
        NoMatch(s);
        Prepend(front, ReplaceAll(tail, HTTP_HTTP, HTTP));
      }
    }
  }

  lemma Prepend(front: string, tail: string)
    requires front != ""
    ensures [front[0]] + (front[1..] + tail) == front + tail
  {
  }

  lemma NoMatch(s: string)
    requires |s| >= 14 && s[..14] != HTTP_HTTP
    ensures ReplaceAll(s, HTTP_HTTP, HTTP) == [s[0]] + ReplaceAll(s[1..], HTTP_HTTP, HTTP)
  {
  }

  lemma Short(s: string)
    requires |s| < |HTTP_HTTP|
    ensures ReplaceAll(s, HTTP_HTTP, HTTP) == s
  {
  }

  lemma NoMatchInside(front: string, tail: string)
    requires 0 < |front| <= 8 && front == HTTPS[8 - |front|..] && |front + tail| >= 14
    ensures (front + tail)[..14] != HTTP_HTTP
  {
    var s := front + tail;
    assert s[..14][0] == front[0] == HTTPS[8 - |front|];
    if |front| == 8 { assert s[..14][4] == front[4] == 's'; }
  }

  /** Every further scheme disappears. */
  lemma {:induction false} SchemesCollapse(k: nat, rest: string)
    requires k >= 1 && Plain(rest)
    ensures Exhaust(Repeated(k) + rest, HTTP_HTTP, HTTP) == HTTP + rest
    decreases k
  {
    if k == 1 {
      OneScheme();
      forall i: nat ensures !OccursAt(HTTP + rest, HTTP_HTTP, i) { NotRepeated(HTTP, rest, i); }
      NoOccurrence(HTTP + rest, HTTP_HTTP, HTTP);
    } else {
      TwoSchemes(k, rest);
      FrontIsContained(HTTP_HTTP, Repeated(k - 2) + rest);
      PassHalves(k, rest);
      SchemesCollapse((k + 1) / 2, rest);
    }
  }

  lemma FrontIsContained(pat: string, tail: string)
    requires pat != ""
    ensures Contains(pat + tail, pat)
  {
    assert (pat + tail)[..|pat|] == pat;
  }

  lemma {:induction false} SchemesCollapseBehindHttps(k: nat, rest: string)
    requires k >= 1 && Plain(rest)
    ensures Exhaust(HTTPS + (Repeated(k) + rest), HTTP_HTTP, HTTP) == HTTPS + (HTTP + rest)
    decreases k
  {
    if k == 1 {
      OneScheme();
      NoDoubleBehindHttps(rest);
    } else {
      var s := HTTPS + (Repeated(k) + rest);
      TwoSchemes(k, rest);
      ContainedBehind(HTTPS, HTTP_HTTP, Repeated(k - 2) + rest);
      PassHalves(k, rest);
      SkipHttps(Repeated(k) + rest);
      SchemesCollapseBehindHttps((k + 1) / 2, rest);
    }
  }

  lemma ContainedBehind(front: string, pat: string, tail: string)
    requires pat != ""
    ensures Contains(front + (pat + tail), pat)
  {
    var s := front + (pat + tail);
    assert s[|front|..|front| + |pat|] == pat;
    assert OccursAt(s, pat, |front|);
    FindIsFirst(s, pat);
  }

  lemma NoDoubleBehindHttps(rest: string)
    requires Plain(rest)
    ensures !Contains(HTTPS + (HTTP + rest), HTTP_HTTP)
  {
    var s := HTTPS + (HTTP + rest);
    assert s[1] == 't';
    FindIsFirst(s, HTTP_HTTP);
    if Contains(s, HTTP_HTTP) {
      var k := Find(s, HTTP_HTTP).value;
      StartsWithH(s, k);
      SchemePatternHasTwoSeparators(s, k);
      hide Find, OccursAt, Plain;
      SeparatorAt(s, k + 11);
      SeparatorAt(HTTP + rest, k + 3);
      OneSeparator(HTTP, rest, k + 3);
    }
  }

  lemma StartsWithH(s: string, k: nat)
    requires OccursAt(s, HTTP_HTTP, k)
    ensures k < |s| && s[k] == 'h'
  {
    OccursByElement(s, HTTP_HTTP, k);
  }

  /** For one scheme and a plain rest the remaining steps do nothing. */
  lemma OneSchemeIsFixed(scheme: string, rest: string)
    requires scheme in {HTTP, HTTPS} && Plain(rest)
    ensures CollapseRest(scheme + rest) == scheme + rest
    ensures Exhaust(scheme + rest, HTTPS_HTTP, HTTPS) == scheme + rest
  {
    var u := scheme + rest;
    forall i: nat ensures !OccursAt(u, HTTPS_HTTP, i) { NotRepeated(scheme, rest, i); }
    NoOccurrence(u, HTTPS_HTTP, HTTPS);
    FindIsFirst(u, SEPARATOR);
    OneSeparator(scheme, rest, |scheme| - 3);
    OneSeparator(scheme, rest, Find(u, SEPARATOR).value);
    assert u[|scheme|..] == rest;
    assert u[..|scheme| - 3] + SEPARATOR == scheme;
  }

  lemma StartsAndEnds(scheme: string, middle: string, rest: string)
    requires scheme in {HTTP, HTTPS} && Plain(rest) && (middle != "" ==> middle[|middle| - 1] == '/')
    ensures TrimSpace(scheme + (middle + rest)) == scheme + (middle + rest)
  {
    var u := scheme + (middle + rest);
    assert u[0] == 'h';
    assert u[|u| - 1] == if rest != "" then rest[|rest| - 1] else '/';
    TrimmedStays(u);
  }

  lemma {:induction false} RepeatedEnds(k: nat)
    requires k >= 1
    ensures Repeated(k) != "" && Repeated(k)[|Repeated(k)| - 1] == '/'
  {
    assert Repeated(k) == HTTP + Repeated(k - 1);
    if k > 1 { RepeatedEnds(k - 1); }
  }

  /** The steps of the clean-up, one after the other. */
  lemma Steps(u: string, a: string, b: string)
    requires u != "" && TrimSpace(u) == u
    requires Exhaust(u, HTTP_HTTP, HTTP) == a && Exhaust(a, HTTPS_HTTP, HTTPS) == b && CollapseRest(b) == b
    ensures Normalize(u) == b
  {
    hide TrimSpace, Exhaust, CollapseRest;
  }

  /** However often "http://" stands before a plain rest, it is kept once. */
  lemma HttpRepeatedIsRepaired(k: nat, rest: string)
    requires k >= 1 && Plain(rest)
    ensures Normalize(Repeated(k) + rest) == HTTP + rest
  {
    assert Repeated(k) + rest != "";
    if k > 1 { RepeatedEnds(k - 1); }
    hide Plain, Exhaust, TrimSpace, CollapseRest, Normalize;
    StartsAndEnds(HTTP, Repeated(k - 1), rest);
    hide *;
    OneMoreScheme(k - 1, rest);
    SchemesCollapse(k, rest);
    OneSchemeIsFixed(HTTP, rest);
    Steps(Repeated(k) + rest, HTTP + rest, HTTP + rest);
  }

  /** Behind "https://", every "http://" is dropped. */
  lemma HttpBehindHttpsIsRepaired(k: nat, rest: string)
    requires k >= 1 && Plain(rest)
    ensures Normalize(HTTPS + (Repeated(k) + rest)) == HTTPS + rest
  {
    RepeatedEnds(k);
    hide *;
    StartsAndEnds(HTTPS, Repeated(k), rest);
    SchemesCollapseBehindHttps(k, rest);
    MixedSchemes(rest);
    OneSchemeIsFixed(HTTPS, rest);
    Steps(HTTPS + (Repeated(k) + rest), HTTPS + (HTTP + rest), HTTPS + rest);
  }

  lemma MixedSchemes(rest: string)
    requires Plain(rest)
    ensures Exhaust(HTTPS + (HTTP + rest), HTTPS_HTTP, HTTPS) == HTTPS + rest
  {
    var s := HTTPS + (HTTP + rest);
    assert s == HTTPS_HTTP + rest by { assert HTTPS + HTTP == HTTPS_HTTP; }
    FrontIsContained(HTTPS_HTTP, rest);
    ReplaceFront(HTTPS_HTTP, HTTPS, rest);
    forall i: nat ensures !OccursAt(rest, HTTPS_HTTP, i) { PlainIsNotRepeated(rest, i); }
    NoOccurrence(rest, HTTPS_HTTP, HTTPS);
    OneSchemeIsFixed(HTTPS, rest);
  }

  /** The server's audience with its scheme doubled is repaired, for a host without "//". */
  lemma DoubledAudienceIsRepaired(host: string)
    requires !Contains(host, SLASHES)
    ensures Normalize(HTTP + Audience(host)) == Audience(host)
  {
    var rest := host + ":9000";
    PortIsPlain(host);
    assert Audience(host) == HTTP + rest;
    hide *;
    OneScheme();
    OneMoreScheme(1, rest);
    HttpRepeatedIsRepaired(2, rest);
  }

  lemma PortIsPlain(host: string)
    requires !Contains(host, SLASHES)
    ensures Plain(host + ":9000")
  {
    hide Contains;
    PortAddsNoSlashes(host);
    assert (host + ":9000")[|host| + 4] == '0';
  }
}
