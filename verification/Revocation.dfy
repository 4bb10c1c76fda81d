/** What a revocation achieves: for one token, and for everything issued along a lineage. */
module Revocation {
  import opened Base
  import opened Model
  import opened Expiry
  import opened Protocol
  import opened World
  import opened Lineage
  import opened Access

  ghost predicate LiveTokenOf(s: State, now: int, token: Token, clientID: string) {
    || (Find(s.access, token, now).Some? && s.access[token].value.clientID == clientID)
    || (Find(s.refresh, token, now).Some? && s.refresh[token].value.clientID == clientID)
  }

  /**
   * A revocation is refused exactly for an unregistered client, or when the hint leads to a live token of
   * another client; it always answers success otherwise, also for a token that is stored nowhere. Unless it
   * names a live token of the client itself, it leaves every live token in place.
   */
  lemma RevokedExactlyWhen(s: State, now: int, token: Token, hint: Hint, clientID: string)
    ensures var r := Revoke(s, now, token, hint, clientID).result;
      && (r == Err(ClientNotFound) <==> clientID !in s.clients)
      && (r == Err(TokenOfOtherClient) <==>
            && clientID in s.clients
            && !hint.OtherHint? && var hinted := if hint.RefreshTokenHint? then s.refresh else s.access;
            && Find(hinted, token, now).Some? && hinted[token].value.clientID != clientID)
      && (r.Err? ==> r.error == ClientNotFound || r.error == TokenOfOtherClient)
    ensures var t := After(s, now, Revoke(s, now, token, hint, clientID).effect);
      Revoke(s, now, token, hint, clientID).result.Err? || !LiveTokenOf(s, now, token, clientID)
      ==> SameLive(t.access, s.access, now) && SameLive(t.refresh, s.refresh, now)
  {}

  /** The hint names the other kind of token. */
  predicate WrongHint(token: Token, hint: Hint) {
    (hint.AccessTokenHint? && token.Opaque?) || (hint.RefreshTokenHint? && token.AccessJwt?)
  }

  /**
   * Revoking one's own live token always answers success, and removes the token exactly when the hint
   * does not name the other kind; a removed refresh token takes the access token it was issued with along.
   */
  lemma RevocationEffectiveIff(cfg: Config, w: World, now: int, token: Token, hint: Hint, clientID: string)
    requires Inv(cfg, w) && clientID in w.server.clients && LiveTokenOf(w.server, now, token, clientID)
    ensures var o := Revoke(w.server, now, token, hint, clientID);
      var t := After(w.server, now, o.effect);
      && o.result == Ok(())
      && ((token !in t.access && token !in t.refresh) <==> !WrongHint(token, hint))
      && (!WrongHint(token, hint) && token.Opaque? ==> w.server.refresh[token].value.accessToken !in t.access)
  {
    if token in w.server.access {
      assert AccessAgrees(cfg, token, w.server.access[token]);
    }
    if token in w.server.refresh {
      assert RefreshAgrees(cfg, w.drawn, token, w.server.refresh[token]);
    }
  }

  /** Event `n` is a revocation by its own client of a live refresh token, without a wrong hint. */
  ghost predicate RevokesRefresh(run: Run, n: nat, token: Token) {
    && n < run.Length() && run.EventAt(n).action.Request? && run.EventAt(n).action.op.RevokeOp?
    && var op, s := run.EventAt(n).action.op, run.Server(n);
    && op.token == token && !op.hint.AccessTokenHint? && op.clientID in s.clients
    && Find(s.refresh, token, run.Now(n)).Some? && s.refresh[token].value.clientID == op.clientID
  }

  lemma RevocationRemoves(run: Run, n: nat, token: Token)
    requires run.Valid() && RevokesRefresh(run, n, token)
    ensures token.Opaque? && token.text in run.At(n + 1).drawn && token !in run.Server(n + 1).refresh
    ensures run.Server(n).refresh[token].value.accessToken !in run.Server(n + 1).access
  {
    hide Next, Revoke;
    var op := run.EventAt(n).action.op;
    InvAlways(run, n);
    ServerStep(run, n);
    assert RefreshAgrees(run.cfg, run.At(n).drawn, token, run.Server(n).refresh[token]);
    RevocationEffectiveIff(run.cfg, run.At(n), run.Now(n), token, op.hint, op.clientID);
  }

  /** A revoked refresh token is never exchanged again. */
  lemma RevokedNeverExchanged(run: Run, n: nat, m: nat, token: Token)
    requires run.Valid() && RevokesRefresh(run, n, token) && n < m < run.Length()
    ensures !Exchanges(run, m, token)
  {
    hide NextServer;
    RevocationRemoves(run, n, token);
    AbsentForGood(run, n + 1, m, token);
    if Exchanges(run, m, token) {
      ExchangeRemoves(run, m, token);
    }
  }

  // ------------------------------------------------------------- a whole lineage

  /** The next exchange of a lineage removes the access token of the one before, unless it mints the same again. */
  lemma ExchangeRemovesAccess(run: Run, i: nat, j: nat)
    requires run.Valid() && Rotates(run, i, j)
    ensures AccessOf(run, i).Some?
    ensures AccessOf(run, i) != AccessOf(run, j) ==> AccessOf(run, i).value !in run.Server(j + 1).access
  {
    hide Next, GrantToken;
    var token := run.Request(j).refreshToken;
    ExchangeRemoves(run, j, token);
    var m := IssuerOf(run, j, token);
    IssuerUnique(run, i, m, token);
    ServerStep(run, j);
    RotationReplaces(run.cfg, run.Server(j), run.EventAt(j).env, run.Request(j));
  }

  lemma SuccessfulRefreshDeletes(cfg: Config, s: State, env: Env, req: TokenRequest)
    requires req.grantType == RefreshTokenGrant && GrantToken(cfg, s, env, req).result.Ok?
    ensures req.refreshToken in s.refresh
    ensures GrantToken(cfg, s, env, req).effect.access.deleted == {s.refresh[req.refreshToken].value.accessToken}
  {
    hide IdToken, IncludesIdToken, RefreshedScope;
  }

  /** An exchange deletes, on purpose, the access token of the event before it in the lineage. */
  lemma ExchangeDeletes(run: Run, i: nat, j: nat)
    requires run.Valid() && Rotates(run, i, j)
    ensures AccessOf(run, i).Some?
    ensures AccessOf(run, i).value in DeletedAccess(run.cfg, run.Server(j), run.EventAt(j))
  {
    hide NextServer, GrantToken;
    var token := run.Request(j).refreshToken;
    ExchangeRemoves(run, j, token);
    var m := IssuerOf(run, j, token);
    IssuerUnique(run, i, m, token);
    ServerStep(run, j);
    SuccessfulRefreshDeletes(run.cfg, run.Server(j), run.EventAt(j).env, run.Request(j));
  }

  lemma KeyKinds(cfg: Config, w: World)
    requires Inv(cfg, w)
    ensures forall k :: k in w.server.access ==> k.AccessJwt?
    ensures forall k :: k in w.server.refresh ==> k.Opaque?
  {
    forall k | k in w.server.access ensures k.AccessJwt? { assert AccessAgrees(cfg, k, w.server.access[k]); }
    forall k | k in w.server.refresh ensures k.Opaque? {
      assert RefreshAgrees(cfg, w.drawn, k, w.server.refresh[k]);
    }
  }

  /** So does a revocation for the access token that was issued with the revoked refresh token. */
  lemma RevocationDeletes(run: Run, i: nat, n: nat, token: Token)
    requires run.Valid() && IssuesRefresh(run, i, token) && RevokesRefresh(run, n, token)
    ensures i < n && AccessOf(run, i).Some? && AccessOf(run, n) == None
    ensures AccessOf(run, i).value in DeletedAccess(run.cfg, run.Server(n), run.EventAt(n))
  {
    hide NextServer, Inv;
    InvAlways(run, n);
    KeyKinds(run.cfg, run.At(n));
    var m := IssuerOf(run, n, token);
    IssuerUnique(run, i, m, token);
  }

  /** Event `n` revokes the current refresh token of the lineage `c`. */
  ghost predicate RevokesLineage(run: Run, c: seq<nat>, n: nat) {
    && IsLineage(run, c)
    && Last(c) < run.Length() && run.Issued(Last(c)).Some? && run.Issued(Last(c)).value.refreshToken.Some?
    && RevokesRefresh(run, n, run.Issued(Last(c)).value.refreshToken.value)
  }

  /** The event that deletes the access token of position `k`: the next exchange, or the revocation. */
  function Removal(c: seq<nat>, k: nat, n: nat): nat
    requires k < |c|
  {
    if k + 1 < |c| then c[k + 1] else n
  }

  lemma {:induction false} LineageBefore(run: Run, c: seq<nat>, k: nat, n: nat)
    requires run.Valid() && RevokesLineage(run, c, n) && k < |c|
    ensures c[k] < n
  {
    hide NextServer, RevokesRefresh, Exchanges;
    RevocationDeletes(run, Last(c), n, run.Issued(Last(c)).value.refreshToken.value);
    if k < |c| - 1 { IncreasingLineage(run, c, k, |c| - 1); }
  }

  lemma RemovalDeletes(run: Run, c: seq<nat>, k: nat, n: nat)
    requires run.Valid() && RevokesLineage(run, c, n) && k < |c|
    ensures c[k] < Removal(c, k, n) <= n < run.Length() && AccessOf(run, c[k]).Some?
    ensures var d := Removal(c, k, n);
      && AccessOf(run, c[k]).value in DeletedAccess(run.cfg, run.Server(d), run.EventAt(d))
      && (d in c || AccessOf(run, d) == None)
  {
    hide NextServer, RevokesRefresh, Exchanges, DeletedAccess;
    assert n < run.Length() by { RevokedInRange(run, c, n); }
    if k + 1 < |c| {
      assert Rotates(run, c[k], c[k + 1]);
      ExchangeDeletes(run, c[k], c[k + 1]);
      LineageBefore(run, c, k + 1, n);
    } else {
      RevocationDeletes(run, Last(c), n, run.Issued(Last(c)).value.refreshToken.value);
    }
  }

  lemma RevokedInRange(run: Run, c: seq<nat>, n: nat)
    requires RevokesLineage(run, c, n)
    ensures n < run.Length()
  {}

  // A mint that lasts beyond the revocation lies outside the lineage and after the removal.
  lemma SurvivorIsOutside(run: Run, c: seq<nat>, k: nat, n: nat, j: nat, key: Token, i: nat)
    requires run.Valid() && RevokesLineage(run, c, n) && k < |c| && n < j <= run.Length()
    requires AccessOf(run, c[k]) == Some(key) && MintedAndKept(run, i, j, key)
    ensures Removal(c, k, n) < i && i !in c
  {
    hide NextServer, DeletedAccess, RevokesLineage, AccessOf;
    RemovalDeletes(run, c, k, n);
    forall p | 0 <= p < |c| ensures c[p] != i {
      RemovalDeletes(run, c, p, n);
    }
  }

  /**
   * Revoking the current refresh token of a lineage ends the whole lineage, with one exact exception.
   * After the revocation, an access token that one of its events issued is accepted exactly when its exp
   * second is still ahead and an event outside the lineage, later than the one that removed the token,
   * minted the same string again and nothing has deleted it on purpose since.
   */
  lemma LineageRevoked(run: Run, c: seq<nat>, k: nat, n: nat, j: nat, key: Token)
    requires run.Valid() && RevokesLineage(run, c, n) && k < |c| && n < j < run.Length()
    requires AccessOf(run, c[k]) == Some(key)
    ensures key.AccessJwt?
    ensures Bearer(run.Server(j), run.Now(j), key).result.Ok?
      <==> && run.Now(j) < key.exp * SECOND
           && exists m: nat :: Removal(c, k, n) < m && m !in c && MintedAndKept(run, m, j, key)
  {
    hide NextServer, Bearer, DeletedAccess, RevokesLineage, MintedAndKept, Removal;
    AcceptedExactlyWhen(run, j, key);
    if i: nat :| MintedAndKept(run, i, j, key) {
      SurvivorIsOutside(run, c, k, n, j, key, i);
    }
    IssuedShape(run, c[k]);
  }

  /** Two events mint the same access token only in the same second, for the same client, user and scope. */
  lemma SameTokenSameSecond(run: Run, i: nat, m: nat)
    requires run.Valid() && AccessOf(run, i).Some? && AccessOf(run, i) == AccessOf(run, m)
    ensures AccessOf(run, i).value.AccessJwt?
    ensures Unix(run.Now(i)) == AccessOf(run, i).value.iat == Unix(run.Now(m))
    ensures run.Request(i).clientID == run.Request(m).clientID && run.Issued(i).value.scope == run.Issued(m).value.scope
  {
    hide NextServer;
    IssuedShape(run, i);
    IssuedShape(run, m);
  }

  /**
   * The removal is final when it happens in a later second than the token was issued in: whatever is
   * requested afterwards, the access token is never accepted again.
   */
  lemma LaterRevocationFinal(run: Run, c: seq<nat>, k: nat, n: nat, j: nat, key: Token)
    requires run.Valid() && RevokesLineage(run, c, n) && k < |c| && n < j < run.Length()
    requires AccessOf(run, c[k]) == Some(key)
    requires Removal(c, k, n) < run.Length() && Unix(run.Now(c[k])) < Unix(run.Now(Removal(c, k, n)))
    ensures Bearer(run.Server(j), run.Now(j), key).result.Err?
  {
    hide NextServer, Bearer, DeletedAccess, RevokesLineage;
    LineageRevoked(run, c, k, n, j, key);
    if m: nat :| Removal(c, k, n) < m && m !in c && MintedAndKept(run, m, j, key) {
      SameTokenSameSecond(run, c[k], m);
      TimeAdvances(run, Removal(c, k, n), m);
      assert false;
    }
  }
}
