/**
 The issuer's pre-authorized code flow (sections 4.1.1 and 6.1 of OpenID for
 Verifiable Credential Issuance): an offer's code is exchanged for an access token,
 and the token for credentials.  Times are Unix seconds.  Codes and tokens are
 random strings, taken to be fresh.
 */
module VciFlow {
  import opened Wrappers
  import opened Strings

  const GRANT: string := "urn:ietf:params:oauth:grant-type:pre-authorized_code"
  const BEARER: string := "Bearer "

  datatype Offer = Offer(user: string, expires: int)
  datatype Access = Access(user: string, nonce: string, exp: int)
  datatype Stores = Stores(preAuth: map<string, Offer>, access: map<string, Access>)

  predicate CodeLive(st: Stores, code: string, now: int) {
    code in st.preAuth && now <= st.preAuth[code].expires
  }

  predicate TokenLive(st: Stores, token: string, now: int) {
    token in st.access && now <= st.access[token].exp
  }

  function WithOffer(st: Stores, code: string, user: string, now: int): Stores {
    st.(preAuth := st.preAuth[code := Offer(user, now + 300)])
  }

  function WithToken(st: Stores, token: string, user: string, nonce: string, now: int): Stores {
    st.(access := st.access[token := Access(user, nonce, now + 300)])
  }

  function WithoutCode(st: Stores, code: string): Stores { st.(preAuth := st.preAuth - {code}) }

  /** `PreAuthStore` and `AccessStore`; each method is one handler, run without interference. */
  class Issuer {
    var preAuthStore: map<string, Offer>
    var accessStore: map<string, Access>

    function Contents(): Stores
      reads this
    {
      Stores(preAuthStore, accessStore)
    }

    constructor ()
      ensures Contents() == Stores(map[], map[])
    {
      preAuthStore, accessStore := map[], map[];
    }

    method HandleCreateOffer(session: Option<string>, code: string, now: int) returns (offered: bool)
      modifies this
      ensures offered == session.Some?
      ensures Contents() == if offered then WithOffer(old(Contents()), code, session.value, now) else old(Contents())
      ensures offered ==> preAuthStore == old(preAuthStore)[code := Offer(session.value, now + 300)]
      ensures accessStore == old(accessStore)
    {
      match session
      case None => return false;
      case Some(user) =>
        preAuthStore := preAuthStore[code := Offer(user, now + 300)];
        return true;
    }

    /** An offer is shown exactly when its code can be exchanged at that moment. */
    method HandleOfferByCode(code: string, now: int) returns (shown: bool)
      ensures shown == CodeLive(Contents(), code, now)
      ensures shown <==> code in preAuthStore && now <= preAuthStore[code].expires
    {
      if code !in preAuthStore || now > preAuthStore[code].expires { return false; }
      return true;
    }

    method HandleVciToken(grant: string, code: string, now: int, token: string, nonce: string) returns (issued: bool)
      modifies this
      ensures issued == (grant == GRANT && CodeLive(old(Contents()), code, now))
      ensures !issued ==> Contents() == old(Contents())
      ensures issued ==>
                var user := old(preAuthStore)[code].user;
                Contents() == WithoutCode(WithToken(old(Contents()), token, user, nonce, now), code)
      ensures issued ==> grant == "urn:ietf:params:oauth:grant-type:pre-authorized_code"
      ensures issued <==> grant == GRANT && code in old(preAuthStore) && now <= old(preAuthStore)[code].expires
      ensures issued ==>
                && preAuthStore == old(preAuthStore) - {code}
                && accessStore == old(accessStore)[token := Access(old(preAuthStore)[code].user, nonce, now + 300)]
    {
      if grant != GRANT { return false; }
      if code !in preAuthStore || now > preAuthStore[code].expires { return false; }
      var user := preAuthStore[code].user;
      accessStore := accessStore[token := Access(user, nonce, now + 300)];
      preAuthStore := preAuthStore - {code};
      return true;
    }

    /** The subject of the signed credential, when one is issued. */
    method HandleVciCredential(auth: string, now: int) returns (subject: Option<string>)
      ensures subject.Some? <==>
                exists rest :: auth == BEARER + rest && TokenLive(Contents(), TrimSpace(rest), now)
      ensures subject.Some? ==> |auth| >= 7 && auth[..7] == "Bearer "
      ensures forall rest :: auth == BEARER + rest && subject.Some? ==>
                && TrimSpace(rest) in accessStore && now <= accessStore[TrimSpace(rest)].exp
                && subject.value == accessStore[TrimSpace(rest)].user
    {
      if |auth| < |BEARER| || auth[..|BEARER|] != BEARER { return None; }
      var at := TrimSpace(auth[|BEARER|..]);
      assert auth == BEARER + auth[|BEARER|..];
      assert forall rest :: auth == BEARER + rest ==> rest == auth[|BEARER|..];
      if at !in accessStore || now > accessStore[at].exp { return None; }
      return Some(accessStore[at].user);
    }
  }

  // ----- interleaved calls -----

  /** One token request: refused, past the look-up, past the mint, or past the removal of its code. */
  datatype Exchange =
    | Refused
    | Found(code: string, user: string, at: int)
    | Minted(code: string, user: string, at: int, token: string, mintedAt: int)
    | Done(code: string, user: string, at: int, token: string, mintedAt: int)
  {
    predicate Uses(c: string) { !Refused? && code == c }
    predicate Pending(c: string) { (Found? || Minted?) && code == c }
    predicate Redeemed(c: string) { (Minted? || Done?) && code == c }
  }

  datatype Credential = Credential(token: string, subject: string, at: int)

  /** `offered` records every offer ever made, `issued` every credential. */
  datatype State = State(
    now: int,
    stores: Stores,
    offered: map<string, Offer>,
    exchanges: map<nat, Exchange>,
    issued: seq<Credential>)

  const INIT: State := State(0, Stores(map[], map[]), map[], map[], [])

  /** A token request is three critical sections: look-up, mint, removal. */
  datatype Action =
    | Tick(seconds: nat)
    | CreateOffer(user: string, code: string)
    | Lookup(x: nat, grant: string, code: string)
    | Mint(x: nat, token: string, nonce: string)
    | Remove(x: nat)
    | Issue(token: string)

  predicate Enabled(s: State, a: Action) {
    match a
    case Tick(_) => true
    case CreateOffer(_, code) => code !in s.offered
    case Lookup(x, _, _) => x !in s.exchanges
    case Mint(x, token, _) => x in s.exchanges && s.exchanges[x].Found? && token !in s.stores.access
    case Remove(x) => x in s.exchanges && s.exchanges[x].Minted?
    case Issue(_) => true
  }

  predicate Finds(s: State, a: Action) {
    a.Lookup? && a.grant == GRANT && CodeLive(s.stores, a.code, s.now)
  }

  function Step(s: State, a: Action): State
    requires Enabled(s, a)
  {
    match a
    case Tick(d) => s.(now := s.now + d)
    case CreateOffer(user, code) =>
      s.(stores := WithOffer(s.stores, code, user, s.now), offered := s.offered[code := Offer(user, s.now + 300)])
    case Lookup(x, grant, code) =>
      s.(exchanges := s.exchanges[x :=
           if Finds(s, a) then Found(code, s.stores.preAuth[code].user, s.now) else Refused])
    case Mint(x, token, nonce) =>
      var e := s.exchanges[x];
      s.(stores := WithToken(s.stores, token, e.user, nonce, s.now),
         exchanges := s.exchanges[x := Minted(e.code, e.user, e.at, token, s.now)])
    case Remove(x) =>
      var e := s.exchanges[x];
      s.(stores := WithoutCode(s.stores, e.code),
         exchanges := s.exchanges[x := Done(e.code, e.user, e.at, e.token, e.mintedAt)])
    case Issue(token) =>
      if TokenLive(s.stores, token, s.now) then
        s.(issued := s.issued + [Credential(token, s.stores.access[token].user, s.now)])
      else s
  }

  function Run(schedule: seq<Action>): Option<State> {
    if schedule == [] then Some(INIT)
    else
      var n := |schedule| - 1;
      var s :- Run(schedule[..n]);
      if Enabled(s, schedule[n]) then Some(Step(s, schedule[n])) else None
  }

  // ----- invariant -----

  predicate OfferOk(s: State, c: string) {
    && (c in s.stores.preAuth ==> c in s.offered && s.stores.preAuth[c] == s.offered[c])
    && (c in s.offered ==> s.offered[c].expires <= s.now + 300)
  }

  /** An exchange looked its code up within the 300 seconds of an offer to its user. */
  predicate ExchangeOk(s: State, e: Exchange) {
    e.Refused? ||
    (&& e.code in s.offered && e.user == s.offered[e.code].user
     && s.offered[e.code].expires - 300 <= e.at <= s.offered[e.code].expires && e.at <= s.now
     && (!e.Found? ==>
           && e.at <= e.mintedAt <= s.now && e.token in s.stores.access
           && s.stores.access[e.token].user == e.user && s.stores.access[e.token].exp == e.mintedAt + 300)
     && (e.Done? ==> e.code !in s.stores.preAuth))
  }

  predicate TokenOf(s: State, x: nat, token: string) {
    x in s.exchanges && (s.exchanges[x].Minted? || s.exchanges[x].Done?) && s.exchanges[x].token == token
  }

  ghost predicate TokensOwned(s: State) {
    && (forall token | token in s.stores.access :: exists x :: TokenOf(s, x, token))
    && (forall x, y, token | TokenOf(s, x, token) && TokenOf(s, y, token) :: x == y)
  }

  predicate CredentialOk(s: State, c: Credential) {
    && c.token in s.stores.access && c.subject == s.stores.access[c.token].user
    && s.stores.access[c.token].exp - 300 <= c.at <= s.stores.access[c.token].exp && c.at <= s.now
  }

  ghost predicate Inv(s: State) {
    && (forall c :: OfferOk(s, c))
    && (forall x | x in s.exchanges :: ExchangeOk(s, s.exchanges[x]))
    && TokensOwned(s)
    && (forall k | 0 <= k < |s.issued| :: CredentialOk(s, s.issued[k]))
    && (forall token | token in s.stores.access :: s.stores.access[token].exp <= s.now + 300)
  }

  lemma StepKeepsOffers(s: State, a: Action)
    requires Inv(s) && Enabled(s, a)
    ensures forall c :: OfferOk(Step(s, a), c)
  {
    hide TokensOwned, ExchangeOk, CredentialOk;
    forall c ensures OfferOk(Step(s, a), c) { assert OfferOk(s, c); }
  }

  lemma StepKeepsExchanges(s: State, a: Action)
    requires Inv(s) && Enabled(s, a)
    ensures forall x | x in Step(s, a).exchanges :: ExchangeOk(Step(s, a), Step(s, a).exchanges[x])
  {
    hide TokensOwned, CredentialOk;
    var n := Step(s, a);
    forall x | x in n.exchanges ensures ExchangeOk(n, n.exchanges[x]) {
      if x in s.exchanges { assert ExchangeOk(s, s.exchanges[x]); }
      if a.Lookup? { assert OfferOk(s, a.code); }
    }
  }

  lemma StepKeepsTokens(s: State, a: Action)
    requires Inv(s) && Enabled(s, a)
    ensures TokensOwned(Step(s, a))
  {
    hide OfferOk, CredentialOk;
    var n := Step(s, a);
    forall x, token | TokenOf(n, x, token) ensures TokenOf(s, x, token) || (a.Mint? && a.x == x && a.token == token) {}
    forall x, token | TokenOf(s, x, token) ensures token in s.stores.access && TokenOf(n, x, token) {
      assert ExchangeOk(s, s.exchanges[x]);
    }
    forall token | token in n.stores.access ensures exists x :: TokenOf(n, x, token) {
      if token in s.stores.access {
        var x :| TokenOf(s, x, token);
        assert TokenOf(n, x, token);
      } else {
        assert TokenOf(n, a.x, token);
      }
    }
  }

  lemma StepKeepsCredentials(s: State, a: Action)
    requires Inv(s) && Enabled(s, a)
    ensures var n := Step(s, a);
            && (forall k | 0 <= k < |n.issued| :: CredentialOk(n, n.issued[k]))
            && (forall token | token in n.stores.access :: n.stores.access[token].exp <= n.now + 300)
  {
    hide OfferOk, ExchangeOk, TokensOwned;
    var n := Step(s, a);
    forall k | 0 <= k < |n.issued| ensures CredentialOk(n, n.issued[k]) {
      if k < |s.issued| { assert CredentialOk(s, s.issued[k]); }
    }
  }

  lemma {:induction false} InvAlways(schedule: seq<Action>)
    ensures Run(schedule).Some? ==> Inv(Run(schedule).value)
  {
    assert Inv(INIT);
    if schedule != [] && Run(schedule).Some? {
      var n := |schedule| - 1;
      InvAlways(schedule[..n]);
      var s := Run(schedule[..n]).value;
      StepKeepsOffers(s, schedule[n]);
      StepKeepsExchanges(s, schedule[n]);
      StepKeepsTokens(s, schedule[n]);
      StepKeepsCredentials(s, schedule[n]);
    }
  }

  /**
   In every interleaving each credential names the user who was made the offer: its
   token was minted by one exchange, which had looked the code up while the offer
   was at most 300 seconds old, and the token was at most 300 seconds old itself.
   */
  lemma CredentialsTraceToOffers(schedule: seq<Action>, k: nat)
    requires Run(schedule).Some? && k < |Run(schedule).value.issued|
    ensures var s := Run(schedule).value;
            var c := s.issued[k];
            exists x ::
              && TokenOf(s, x, c.token)
              && (forall y :: TokenOf(s, y, c.token) ==> y == x)
              && var e := s.exchanges[x];
                 && e.code in s.offered && s.offered[e.code].user == c.subject
                 && 0 <= e.at - (s.offered[e.code].expires - 300) <= 300
                 && e.at <= e.mintedAt && 0 <= c.at - e.mintedAt <= 300
  {
    InvAlways(schedule);
    var s := Run(schedule).value;
    var c := s.issued[k];
    assert CredentialOk(s, c);
    var x :| TokenOf(s, x, c.token);
    assert ExchangeOk(s, s.exchanges[x]);
  }

  // ----- how long a code and a token can be used -----

  /** An offered code is in the store until an exchange of it is through. */
  predicate StillOffered(s: State, code: string) {
    code in s.offered ==>
      code in s.stores.preAuth || exists x | x in s.exchanges :: s.exchanges[x].Done? && s.exchanges[x].code == code
  }

  lemma StepStillOffers(s: State, a: Action, code: string)
    requires Enabled(s, a) && StillOffered(s, code)
    ensures StillOffered(Step(s, a), code)
  {
    var n := Step(s, a);
    if x :| x in s.exchanges && s.exchanges[x].Done? && s.exchanges[x].code == code {
      assert n.exchanges[x] == s.exchanges[x];
    }
    if a.Remove? { assert n.exchanges[a.x].Done? && n.exchanges[a.x].code == s.exchanges[a.x].code; }
  }

  lemma {:induction false} OfferLasts(schedule: seq<Action>, k: nat)
    requires Run(schedule).Some? && k < |schedule| && schedule[k].CreateOffer?
    ensures Run(schedule[..k]).Some?
    ensures var s, code := Run(schedule).value, schedule[k].code;
            && code in s.offered
            && s.offered[code] == Offer(schedule[k].user, Run(schedule[..k]).value.now + 300)
  {
    var n := |schedule| - 1;
    if k < n {
      assert schedule[..n][..k] == schedule[..k];
      OfferLasts(schedule[..n], k);
    }
  }

  lemma {:induction false} StillOfferedAlways(schedule: seq<Action>, code: string)
    requires Run(schedule).Some?
    ensures StillOffered(Run(schedule).value, code)
  {
    hide Step, Enabled;
    if schedule != [] {
      var n := |schedule| - 1;
      StillOfferedAlways(schedule[..n], code);
      hide StillOffered;
      StepStillOffers(Run(schedule[..n]).value, schedule[n], code);
    }
  }

  /**
   Until an exchange of it is through, an offered code is found, with the offer's user,
   exactly up to the 300th second after the offer.
   */
  lemma CodeIsUsableFor300Seconds(schedule: seq<Action>, k: nat, x: nat)
    requires Run(schedule).Some? && k < |schedule| && schedule[k].CreateOffer?
    requires x !in Run(schedule).value.exchanges
    requires var s := Run(schedule).value;
             forall y | y in s.exchanges :: !(s.exchanges[y].Done? && s.exchanges[y].code == schedule[k].code)
    ensures Run(schedule[..k]).Some?
    ensures var s, code := Run(schedule).value, schedule[k].code;
            Step(s, Lookup(x, GRANT, code)).exchanges[x] ==
            if s.now <= Run(schedule[..k]).value.now + 300 then Found(code, schedule[k].user, s.now) else Refused
  {
    OfferLasts(schedule, k);
    StillOfferedAlways(schedule, schedule[k].code);
    InvAlways(schedule);
    FoundInTime(Run(schedule).value, schedule[k].code, x);
    hide Run, Inv, Step;
  }

  lemma FoundInTime(s: State, code: string, x: nat)
    requires Inv(s) && x !in s.exchanges && code in s.offered && StillOffered(s, code)
    requires forall y | y in s.exchanges :: !(s.exchanges[y].Done? && s.exchanges[y].code == code)
    ensures Step(s, Lookup(x, GRANT, code)).exchanges[x] ==
            if s.now <= s.offered[code].expires then Found(code, s.offered[code].user, s.now) else Refused
  {
    assert OfferOk(s, code);
    hide Inv;
  }

  /** A minted token yields credentials for its user exactly up to the 300th second after the mint. */
  lemma TokenIsUsableFor300Seconds(schedule: seq<Action>, x: nat, token: string)
    requires Run(schedule).Some? && TokenOf(Run(schedule).value, x, token)
    ensures var s := Run(schedule).value;
            Step(s, Issue(token)).issued ==
            if s.now <= s.exchanges[x].mintedAt + 300 then s.issued + [Credential(token, s.exchanges[x].user, s.now)]
            else s.issued
  {
    InvAlways(schedule);
    var s := Run(schedule).value;
    assert ExchangeOk(s, s.exchanges[x]);
    hide Run, Inv;
  }

  /** Under any other grant nothing is found. */
  lemma OtherGrantsAreRefused(s: State, x: nat, grant: string, code: string)
    requires x !in s.exchanges && grant != "urn:ietf:params:oauth:grant-type:pre-authorized_code"
    ensures Step(s, Lookup(x, grant, code)) == s.(exchanges := s.exchanges[x := Refused])
  {
  }

  /** A mint records the moment, and hands on the user and the nonce. */
  lemma MintRecords(s: State, x: nat, token: string, nonce: string)
    requires Enabled(s, Mint(x, token, nonce))
    ensures var n := Step(s, Mint(x, token, nonce));
            && n.exchanges[x] == Minted(s.exchanges[x].code, s.exchanges[x].user, s.exchanges[x].at, token, s.now)
            && n.stores.access == s.stores.access[token := Access(s.exchanges[x].user, nonce, s.now + 300)]
            && n.stores.preAuth == s.stores.preAuth
  {
  }

  // ----- single use -----

  /** A look-up that finds the code while another exchange of it has yet to remove it. */
  predicate OverlapsAt(schedule: seq<Action>, code: string, k: nat) {
    && k < |schedule|
    && Run(schedule[..k]).Some?
    && var s := Run(schedule[..k]).value;
       && Finds(s, schedule[k]) && schedule[k].code == code
       && exists y | y in s.exchanges :: s.exchanges[y].Pending(code)
  }

  ghost predicate Overlaps(schedule: seq<Action>, code: string) { exists k :: OverlapsAt(schedule, code, k) }

  predicate TwoUses(s: State, code: string) {
    exists x, y | x in s.exchanges && y in s.exchanges :: x != y && s.exchanges[x].Uses(code)
        && s.exchanges[y].Uses(code)
  }

  predicate RedeemedTwice(s: State, code: string) {
    exists x, y | x in s.exchanges && y in s.exchanges ::
      x != y && s.exchanges[x].Redeemed(code) && s.exchanges[y].Redeemed(code)
  }

  lemma OverlapsAtPrefix(schedule: seq<Action>, code: string, k: nat)
    requires schedule != [] && k < |schedule| - 1
    ensures OverlapsAt(schedule, code, k) == OverlapsAt(schedule[..|schedule| - 1], code, k)
  {
    assert schedule[..|schedule| - 1][..k] == schedule[..k];
  }

  /** One step adds a second use of a code exactly when it overlaps. */
  lemma StepAndUses(s: State, a: Action, code: string)
    requires Inv(s) && Enabled(s, a)
    ensures TwoUses(s, code) ==> TwoUses(Step(s, a), code)
    ensures !TwoUses(s, code) ==>
              (TwoUses(Step(s, a), code) <==>
               Finds(s, a) && a.code == code && exists y | y in s.exchanges :: s.exchanges[y].Pending(code))
  {
    hide TokensOwned, OfferOk, CredentialOk;
    var n := Step(s, a);
    forall x | x in s.exchanges ensures x in n.exchanges && n.exchanges[x].Uses(code) == s.exchanges[x].Uses(code) {}
    forall x | x in s.exchanges && s.exchanges[x].Uses(code)
      ensures s.exchanges[x].Pending(code) || code !in s.stores.preAuth
    {
      assert ExchangeOk(s, s.exchanges[x]);
    }
    if Finds(s, a) && a.code == code && exists y | y in s.exchanges :: s.exchanges[y].Pending(code) {
      var y :| y in s.exchanges && s.exchanges[y].Pending(code);
      assert n.exchanges[a.x].Uses(code) && n.exchanges[y].Uses(code);
    }
  }

  lemma {:induction false} TwoUsesIffOverlap(schedule: seq<Action>, code: string)
    requires Run(schedule).Some?
    ensures TwoUses(Run(schedule).value, code) <==> Overlaps(schedule, code)
  {
    if schedule != [] {
      var n := |schedule| - 1;
      var s := Run(schedule[..n]).value;
      InvAlways(schedule[..n]);
      TwoUsesIffOverlap(schedule[..n], code);
      forall k: nat | k < n ensures OverlapsAt(schedule, code, k) == OverlapsAt(schedule[..n], code, k) {
        OverlapsAtPrefix(schedule, code, k);
      }
      StepAndUses(s, schedule[n], code);
      assert OverlapsAt(schedule, code, n) <==>
          && Finds(s, schedule[n]) && schedule[n].code == code
          && exists y | y in s.exchanges :: s.exchanges[y].Pending(code);
    }
  }

  /**
   Once no exchange of a code is waiting to mint, the code has been redeemed for two
   tokens exactly when some look-up of it overlapped another exchange of it.
   Handlers that run one after the other therefore redeem every code at most once.
   */
  lemma SingleUseIsExact(schedule: seq<Action>, code: string)
    requires Run(schedule).Some?
    ensures RedeemedTwice(Run(schedule).value, code) ==> Overlaps(schedule, code)
    ensures var s := Run(schedule).value;
            (forall x | x in s.exchanges :: !(s.exchanges[x].Found? && s.exchanges[x].code == code)) ==>
              (RedeemedTwice(s, code) <==> Overlaps(schedule, code))
  {
    TwoUsesIffOverlap(schedule, code);
    var s := Run(schedule).value;
    forall x | x in s.exchanges
      ensures s.exchanges[x].Redeemed(code) ==> s.exchanges[x].Uses(code)
      ensures s.exchanges[x].Uses(code) && !s.exchanges[x].Redeemed(code) ==>
                s.exchanges[x].Found? && s.exchanges[x].code == code
    {
    }
  }

  /** Two interleaved token requests do redeem one code twice: the condition is not idle. */
  lemma CodeCanBeRedeemedTwice() returns (schedule: seq<Action>)
    ensures Run(schedule).Some? && RedeemedTwice(Run(schedule).value, "code")
  {
    var s1 := [CreateOffer("alice", "code")];
    var s2 := s1 + [Lookup(0, GRANT, "code")];
    var s3 := s2 + [Lookup(1, GRANT, "code")];
    var s4 := s3 + [Mint(0, "atk_a", "n")];
    schedule := s4 + [Mint(1, "atk_b", "n")];
    RunOneMore([], CreateOffer("alice", "code"));
    assert [] + s1 == s1;
    RunOneMore(s1, Lookup(0, GRANT, "code"));
    RunOneMore(s2, Lookup(1, GRANT, "code"));
    RunOneMore(s3, Mint(0, "atk_a", "n"));
    assert "atk_b" != "atk_a" by { assert "atk_b"[4] != "atk_a"[4]; }
    RunOneMore(s4, Mint(1, "atk_b", "n"));
    var s := Run(schedule).value;
    assert s.exchanges[0].Redeemed("code") && s.exchanges[1].Redeemed("code");
  }

  lemma RunOneMore(schedule: seq<Action>, a: Action)
    requires Run(schedule).Some? && Enabled(Run(schedule).value, a)
    ensures Run(schedule + [a]) == Some(Step(Run(schedule).value, a))
  {
    assert (schedule + [a])[..|schedule|] == schedule;
  }
}
