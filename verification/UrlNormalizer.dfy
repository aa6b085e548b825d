/**
 The wallet's URL clean-up, `normalizeWeirdURL`, and when it leaves the server's
 audience string alone.
 */
module UrlNormalizer {
  import opened Wrappers
  import opened Strings

  // ----- the function -----

  const HTTP_HTTP: string := "http://http://"
  const HTTPS_HTTP: string := "https://http://"
  const HTTP: string := "http://"
  const HTTPS: string := "https://"
  const SEPARATOR: string := "://"
  const SLASHES: string := "//"
  const SLASH: string := "/"

  function Unrepeat(u: string): string {
    Exhaust(Exhaust(u, HTTP_HTTP, HTTP), HTTPS_HTTP, HTTPS)
  }

  function CollapseRest(u: string): string {
    match Find(u, SEPARATOR)
    case None => u
    case Some(i) =>
      FindIsFirst(u, SEPARATOR);
      u[..i] + SEPARATOR + Exhaust(u[i + 3..], SLASHES, SLASH)
  }

  function Normalize(u: string): string {
    var t := TrimSpace(u);
    if t == "" then t else CollapseRest(Unrepeat(t))
  }

  /** The loop `for strings.Contains(u, p) { u = strings.ReplaceAll(u, p, q) }`. */
  method ExhaustLoop(s: string, old': string, new': string) returns (u: string)
    requires |new'| < |old'|
    ensures u == Exhaust(s, old', new')
  {
    u := s;
    while Contains(u, old')
      invariant Exhaust(s, old', new') == Exhaust(u, old', new')
      decreases |u|
    {
      ReplaceShrinks(u, old', new');
      u := ReplaceAll(u, old', new');
    }
  }

  /** `normalizeWeirdURL`; it terminates on every string. */
  method NormalizeWeirdURL(url: string) returns (u: string)
    ensures u == Normalize(url)
    ensures SingleSlashes(u)
  {
    u := TrimSpace(url);
    if u == "" { return u; }
    u := ExhaustLoop(u, HTTP_HTTP, HTTP);
    u := ExhaustLoop(u, HTTPS_HTTP, HTTPS);
    var at := Find(u, SEPARATOR);
    if at.Some? {
      FindIsFirst(u, SEPARATOR);
      var scheme, rest := u[..at.value], u[at.value + 3..];
      rest := ExhaustLoop(rest, SLASHES, SLASH);
      u := scheme + SEPARATOR + rest;
    }
    NormalizeLeavesSingleSlashes(url);
  }

  /** No "//" after the first "://". */
  predicate SingleSlashes(u: string) {
    match Find(u, SEPARATOR)
    case None => true
    case Some(i) => i + 3 <= |u| && !Contains(u[i + 3..], SLASHES)
  }

  // ----- single slashes -----

  lemma {:induction false} FindOnlySeesPrefix(s: string, t: string, pat: string, i: nat)
    requires pat != "" && Find(s, pat) == Some(i) && i + |pat| <= |s| && i + |pat| <= |t|
    requires s[..i + |pat|] == t[..i + |pat|]
    ensures Find(t, pat) == Some(i)
  {
    assert s[..|pat|] == s[..i + |pat|][..|pat|] && t[..|pat|] == t[..i + |pat|][..|pat|];
    if i > 0 {
      assert s[1..][..i - 1 + |pat|] == s[..i + |pat|][1..];
      assert t[1..][..i - 1 + |pat|] == t[..i + |pat|][1..];
      FindOnlySeesPrefix(s[1..], t[1..], pat, i - 1);
    }
  }

  /** Collapsing keeps the scheme, and its result is where the next call would split again. */
  lemma CollapseSplits(u: string, i: nat)
    requires Find(u, SEPARATOR) == Some(i)
    ensures i + 3 <= |u| && u == u[..i] + SEPARATOR + u[i + 3..]
    ensures var r := CollapseRest(u);
            && Find(r, SEPARATOR) == Some(i)
            && |r| == i + 3 + |Exhaust(u[i + 3..], SLASHES, SLASH)|
            && r[i + 3..] == Exhaust(u[i + 3..], SLASHES, SLASH)
  {
    hide Exhaust, Find;
    FindIsFirst(u, SEPARATOR);
    var r := CollapseRest(u);
    assert u[i..i + 3] == SEPARATOR;
    assert u[..i + 3] == u[..i] + SEPARATOR;
    assert r[..i + 3] == u[..i] + SEPARATOR;
    FindOnlySeesPrefix(u, r, SEPARATOR, i);
  }

  lemma NormalizeLeavesSingleSlashes(u: string)
    ensures SingleSlashes(Normalize(u))
  {
    var t := TrimSpace(u);
    if t != "" {
      var b := Unrepeat(t);
      if Find(b, SEPARATOR).Some? {
        CollapseSplits(b, Find(b, SEPARATOR).value);
        ExhaustEnds(b[Find(b, SEPARATOR).value + 3..], SLASHES, SLASH);
      }
    }
  }

  // ----- idempotence -----

  /** Replacing keeps a non-empty trimmed string non-empty and trimmed. */
  lemma {:induction false} ReplaceKeepsEnds(s: string, old': string, new': string)
    requires old' != "" && new' != "" && Trimmed(new') && s != ""
    ensures var r := ReplaceAll(s, old', new');
            && r != ""
            && (!IsSpace(s[0]) ==> !IsSpace(r[0]))
            && (!IsSpace(s[|s| - 1]) ==> !IsSpace(r[|r| - 1]))
  {
    if |s| >= |old'| {
      var rest := if s[..|old'|] == old' then s[|old'|..] else s[1..];
      if rest == "" {
        assert ReplaceAll(rest, old', new') == "";
      } else {
        ReplaceKeepsEnds(rest, old', new');
      }
    }
  }

  lemma {:induction false} ExhaustKeepsEnds(s: string, old': string, new': string)
    requires |new'| < |old'| && new' != "" && Trimmed(new') && s != ""
    ensures var r := Exhaust(s, old', new');
            && r != ""
            && (!IsSpace(s[0]) ==> !IsSpace(r[0]))
            && (!IsSpace(s[|s| - 1]) ==> !IsSpace(r[|r| - 1]))
    decreases |s|
  {
    if Contains(s, old') {
      ReplaceShrinks(s, old', new');
      ReplaceKeepsEnds(s, old', new');
      ExhaustKeepsEnds(ReplaceAll(s, old', new'), old', new');
    }
  }

  lemma CollapseKeepsEnds(u: string)
    requires u != "" && Trimmed(u)
    ensures CollapseRest(u) != "" && Trimmed(CollapseRest(u))
  {
    if Find(u, SEPARATOR).Some? {
      var i := Find(u, SEPARATOR).value;
      CollapseSplits(u, i);
      var rest := u[i + 3..];
      if rest == "" {
        assert Exhaust(rest, SLASHES, SLASH) == "";
        assert CollapseRest(u) == u;
      } else {
        ExhaustKeepsEnds(rest, SLASHES, SLASH);
        assert rest[|rest| - 1] == u[|u| - 1];
      }
    }
  }

  lemma SlashesAt(s: string, k: nat)
    ensures OccursAt(s, SLASHES, k) <==> k + 2 <= |s| && s[k] == '/' && s[k + 1] == '/'
  {
    OccursByElement(s, SLASHES, k);
  }

  lemma SeparatorAt(s: string, k: nat)
    ensures OccursAt(s, SEPARATOR, k) <==> k + 3 <= |s| && s[k] == ':' && s[k + 1] == '/' && s[k + 2] == '/'
  {
    OccursByElement(s, SEPARATOR, k);
  }

  lemma SchemePatternHasTwoSeparators(u: string, k: nat)
    ensures OccursAt(u, HTTP_HTTP, k) ==> OccursAt(u, SEPARATOR, k + 4) && OccursAt(u, SEPARATOR, k + 11)
    ensures OccursAt(u, HTTPS_HTTP, k) ==> OccursAt(u, SEPARATOR, k + 5) && OccursAt(u, SEPARATOR, k + 12)
  {
    hide OccursAt;
    OccursByElement(u, HTTP_HTTP, k);
    OccursByElement(u, HTTPS_HTTP, k);
    SeparatorAt(u, k + 4);
    SeparatorAt(u, k + 5);
    SeparatorAt(u, k + 11);
    SeparatorAt(u, k + 12);
  }

  /** With single slashes after the scheme, neither doubled scheme can occur. */
  lemma SingleSlashesNoDoubledScheme(u: string)
    requires SingleSlashes(u)
    ensures !Contains(u, HTTP_HTTP) && !Contains(u, HTTPS_HTTP)
  {
    hide OccursAt, Find;
    FindIsFirst(u, HTTP_HTTP);
    FindIsFirst(u, HTTPS_HTTP);
    FindIsFirst(u, SEPARATOR);
    if Contains(u, HTTP_HTTP) {
      var k := Find(u, HTTP_HTTP).value;
      SchemePatternHasTwoSeparators(u, k);
      LaterSeparator(u, Find(u, SEPARATOR).value, k + 11);
    }
    if Contains(u, HTTPS_HTTP) {
      var k := Find(u, HTTPS_HTTP).value;
      SchemePatternHasTwoSeparators(u, k);
      LaterSeparator(u, Find(u, SEPARATOR).value, k + 12);
    }
  }

  lemma LaterSeparator(u: string, i: nat, k: nat)
    requires i + 3 <= k && OccursAt(u, SEPARATOR, k)
    ensures Contains(u[i + 3..], SLASHES)
  {
    var rest := u[i + 3..];
    SeparatorAt(u, k);
    SlashesAt(rest, k - i - 2);
    FindIsFirst(rest, SLASHES);
  }

  /** A trimmed string with single slashes is its own normal form. */
  lemma SingleSlashesAreFixed(u: string)
    requires Trimmed(u) && SingleSlashes(u)
    ensures Normalize(u) == u
  {
    TrimmedStays(u);
    if u != "" {
      SingleSlashesNoDoubledScheme(u);
      assert Unrepeat(u) == u;
      if Find(u, SEPARATOR).Some? { CollapseSplits(u, Find(u, SEPARATOR).value); }
    }
  }

  lemma NormalizeTrims(u: string)
    ensures Trimmed(Normalize(u))
  {
    var t := TrimSpace(u);
    TrimSpaceTrims(u);
    if t != "" {
      ExhaustKeepsEnds(t, HTTP_HTTP, HTTP);
      ExhaustKeepsEnds(Exhaust(t, HTTP_HTTP, HTTP), HTTPS_HTTP, HTTPS);
      CollapseKeepsEnds(Unrepeat(t));
    }
  }

  /** Normalising twice is normalising once. */
  lemma NormalizeIsIdempotent(u: string)
    ensures Normalize(Normalize(u)) == Normalize(u)
  {
    NormalizeTrims(u);
    NormalizeLeavesSingleSlashes(u);
    SingleSlashesAreFixed(Normalize(u));
  }

  /** Blanks around a URL make no difference. */
  lemma BlanksAreIgnored(before: string, u: string, after: string)
    requires AllSpaces(before) && AllSpaces(after) && Trimmed(u) && u != ""
    ensures Normalize(before + u + after) == Normalize(u)
  {
    TrimTakesBlanks(before, u, after);
    TrimmedStays(u);
    hide TrimSpace, Unrepeat, CollapseRest;
  }

  // ----- slash runs -----

  /** Every run of slashes becomes one slash. */
  function Collapse(s: string): string {
    if s == "" then ""
    else if s[0] == '/' && |s| > 1 && s[1] == '/' then Collapse(s[1..])
    else [s[0]] + Collapse(s[1..])
  }

  lemma {:induction false} ReplaceKeepsCollapse(s: string)
    ensures Collapse(ReplaceAll(s, SLASHES, SLASH)) == Collapse(s)
    ensures s != "" ==> ReplaceAll(s, SLASHES, SLASH) != "" && ReplaceAll(s, SLASHES, SLASH)[0] == s[0]
  {
    if |s| >= 2 {
      if s[..2] == SLASHES {
        ReplaceKeepsCollapse(s[2..]);
        assert s[0] == s[..2][0] && s[1] == s[..2][1];
        var r := ReplaceAll(s[2..], SLASHES, SLASH);
        assert ReplaceAll(s, SLASHES, SLASH) == ['/'] + r;
        assert s[1..][1..] == s[2..];
        CollapseAfterSlash(r);
        CollapseAfterSlash(s[2..]);
        assert s[1..] == ['/'] + s[2..];
      } else {
        ReplaceKeepsCollapse(s[1..]);
        var r := ReplaceAll(s[1..], SLASHES, SLASH);
        assert ReplaceAll(s, SLASHES, SLASH) == [s[0]] + r;
        assert ([s[0]] + r)[1..] == r;
        assert s[..2] == s[0..2];
        SlashesAt(s, 0);
      }
    }
  }

  lemma CollapseAfterSlash(x: string)
    ensures Collapse(['/'] + x) == if x != "" && x[0] == '/' then Collapse(x) else ['/'] + Collapse(x)
  {
    assert (['/'] + x)[1..] == x;
  }

  lemma {:induction false} NoSlashesNoCollapse(s: string)
    requires forall k: nat :: !OccursAt(s, SLASHES, k)
    ensures Collapse(s) == s
  {
    if s != "" {
      SlashesAt(s, 0);
      forall k: nat ensures !OccursAt(s[1..], SLASHES, k) {
        SlashesAt(s[1..], k);
        SlashesAt(s, k + 1);
      }
      NoSlashesNoCollapse(s[1..]);
    }
  }

  /** The slash loop collapses every run of slashes to one, and does nothing else. */
  lemma {:induction false} SlashLoopCollapses(s: string)
    ensures Exhaust(s, SLASHES, SLASH) == Collapse(s)
    decreases |s|
  {
    if Contains(s, SLASHES) {
      ReplaceShrinks(s, SLASHES, SLASH);
      ReplaceKeepsCollapse(s);
      SlashLoopCollapses(ReplaceAll(s, SLASHES, SLASH));
    } else {
      FindIsFirst(s, SLASHES);
      NoSlashesNoCollapse(s);
    }
  }

  // ----- the server's audience -----

  /** The API server's audience string for a LAN host. */
  function Audience(host: string): string { HTTP + host + ":9000" }

  lemma AudienceSplits(host: string)
    ensures Find(Audience(host), SEPARATOR) == Some(4)
    ensures |Audience(host)| >= 7 && Audience(host)[7..] == host + ":9000"
    ensures Trimmed(Audience(host))
  {
    hide Find, OccursAt;
    var u := Audience(host);
    assert u[0] == 'h' && u[1] == 't' && u[2] == 't' && u[3] == 'p' && u[4] == ':' && u[5] == '/' && u[6] == '/';
    FindIsFirst(u, SEPARATOR);
    SeparatorAt(u, 4);
    SeparatorAt(u, Find(u, SEPARATOR).value);
    assert u[7..] == host + ":9000";
    assert u[|u| - 1] == '0';
  }

  lemma PortAddsNoSlashes(host: string)
    ensures Contains(host + ":9000", SLASHES) <==> Contains(host, SLASHES)
  {
    hide Find, OccursAt;
    var x := host + ":9000";
    FindIsFirst(x, SLASHES);
    FindIsFirst(host, SLASHES);
    if Contains(host, SLASHES) {
      SlashesAt(host, Find(host, SLASHES).value);
      SlashesAt(x, Find(host, SLASHES).value);
    }
    if Contains(x, SLASHES) {
      SlashesAt(host, Find(x, SLASHES).value);
      SlashesAt(x, Find(x, SLASHES).value);
    }
  }

  /**
   The clean-up leaves the server's audience alone exactly when the host contains
   no "//".
   */
  lemma AudienceIsEchoed(host: string)
    ensures Normalize(Audience(host)) == Audience(host) <==> !Contains(host, SLASHES)
  {
    AudienceSplits(host);
    PortAddsNoSlashes(host);
    if Contains(host, SLASHES) {
      NormalizeLeavesSingleSlashes(Audience(host));
    } else {
      SingleSlashesAreFixed(Audience(host));
    }
  }
}
