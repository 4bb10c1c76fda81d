/**
 * Tables of records that expire: live lookup, the net change one request makes, and the two
 * stores of the server. A lookup that meets an expired record deletes it.
 */
module Expiry {
  import opened Base
  import opened Model

  /** What a lookup at `now` returns. A record is still live at the instant it expires. */
  function Find<V>(table: Table<V>, key: Token, now: int): Option<Entry<V>> {
    if key in table && now <= table[key].expiresAt then Some(table[key]) else None
  }

  /** No lookup at `now` tells the two tables apart. */
  ghost predicate SameLive<V(!new)>(a: Table<V>, b: Table<V>, now: int) {
    forall key :: Find(a, key, now) == Find(b, key, now)
  }

  /**
   * The net change a request makes to one table: the keys it looked up, the keys it deleted,
   * and the record it stored at the end.
   */
  datatype Change<V> = Change(probed: set<Token>, deleted: set<Token>, stored: Option<(Token, Entry<V>)>) {
    /** The table afterwards: an expired record that was looked up is gone. */
    function Apply(table: Table<V>, now: int): Table<V> {
      Store(map key | key in table && !(key in probed && table[key].expiresAt < now) && key !in deleted :: table[key])
    }

    /** The table afterwards if looking up an expired record left it in place. */
    function ApplyKeepingExpired(table: Table<V>): Table<V> {
      Store(table - deleted)
    }

    function Store(table: Table<V>): Table<V> {
      match stored
      case None => table
      case Some((key, entry)) => table[key := entry]
    }
  }

  function NoChange<V>(): Change<V> {
    Change({}, {}, None)
  }

  function Probe<V>(key: Token): Change<V> {
    Change({key}, {}, None)
  }

  function ProbeAndDelete<V>(key: Token): Change<V> {
    Change({key}, {key}, None)
  }

  /** Records that are live at `now`. */
  function Unexpired<V>(table: Table<V>, now: int): Table<V> {
    map key | key in table && now <= table[key].expiresAt :: table[key]
  }

  /** A sweep at `now` that still has the keys `todo` to visit. */
  function SweptExcept<V>(table: Table<V>, todo: set<Token>, now: int): Table<V> {
    map key | key in table && (key in todo || now <= table[key].expiresAt) :: table[key]
  }

  lemma SameLiveLater<V(!new)>(a: Table<V>, b: Table<V>, now: int, later: int)
    requires SameLive(a, b, now) && now <= later
    ensures SameLive(a, b, later)
  {
    forall key ensures Find(a, key, later) == Find(b, key, later) {
      assert Find(a, key, now) == Find(b, key, now);
    }
  }

  /** Whether lookups delete what has expired cannot be seen by any later lookup. */
  lemma ChangeKeepsSameLive<V(!new)>(a: Table<V>, b: Table<V>, now: int, change: Change<V>)
    requires SameLive(a, b, now)
    ensures SameLive(change.Apply(a, now), change.ApplyKeepingExpired(b), now)
  {
    forall key
      ensures Find(change.Apply(a, now), key, now) == Find(change.ApplyKeepingExpired(b), key, now)
    {
      assert Find(a, key, now) == Find(b, key, now);
    }
  }

  /** AuthCodeStore. */
  class AuthCodeStore {
    var codes: Table<AuthCode>

    constructor ()
      ensures codes == map[]
    {
      codes := map[];
    }

    method Create(code: AuthCode, expiresAt: int)
      modifies this
      ensures codes == old(codes)[code.code := Entry(code, expiresAt)]
    {
      codes := codes[code.code := Entry(code, expiresAt)];
    }

    method Get(code: Token, now: int) returns (found: Option<Entry<AuthCode>>)
      modifies this
      ensures found == Find(old(codes), code, now)
      ensures codes == Probe(code).Apply(old(codes), now)
    {
      if code !in codes {
        assert codes == Probe(code).Apply(codes, now);
        return None;
      }
      var ac := codes[code];
      if now > ac.expiresAt {
        codes := codes - {code};
        assert codes == Probe(code).Apply(old(codes), now);
        return None;
      }
      assert codes == Probe(code).Apply(codes, now);
      return Some(ac);
    }

    method Delete(code: Token)
      modifies this
      ensures codes == old(codes) - {code}
    {
      codes := codes - {code};
    }

    /** One tick of the cleanup loop. */
    method Sweep(now: int)
      modifies this
      ensures codes == Unexpired(old(codes), now)
    {
      var todo := codes.Keys;
      while todo != {}
        invariant todo <= old(codes).Keys && codes == SweptExcept(old(codes), todo, now)
        decreases todo
      {
        var key :| key in todo;
        if now > codes[key].expiresAt {
          codes := codes - {key};
        }
        todo := todo - {key};
        assert codes == SweptExcept(old(codes), todo, now);
      }
      assert codes == Unexpired(old(codes), now);
    }
  }

  /** TokenStore. */
  class TokenStore {
    var accessTokens: Table<TokenInfo>
    var refreshTokens: Table<TokenInfo>

    constructor ()
      ensures accessTokens == map[] && refreshTokens == map[]
    {
      accessTokens, refreshTokens := map[], map[];
    }

    method CreateAccessToken(info: TokenInfo, expiresAt: int)
      modifies this`accessTokens
      ensures accessTokens == old(accessTokens)[info.accessToken := Entry(info, expiresAt)]
    {
      accessTokens := accessTokens[info.accessToken := Entry(info, expiresAt)];
    }

    method GetAccessToken(token: Token, now: int) returns (found: Option<Entry<TokenInfo>>)
      modifies this`accessTokens
      ensures found == Find(old(accessTokens), token, now)
      ensures accessTokens == Probe(token).Apply(old(accessTokens), now)
    {
      if token !in accessTokens {
        assert accessTokens == Probe(token).Apply(accessTokens, now);
        return None;
      }
      var ti := accessTokens[token];
      if now > ti.expiresAt {
        accessTokens := accessTokens - {token};
        assert accessTokens == Probe(token).Apply(old(accessTokens), now);
        return None;
      }
      assert accessTokens == Probe(token).Apply(accessTokens, now);
      return Some(ti);
    }

    method DeleteAccessToken(token: Token)
      modifies this`accessTokens
      ensures accessTokens == old(accessTokens) - {token}
    {
      accessTokens := accessTokens - {token};
    }

    method CreateRefreshToken(token: Token, info: TokenInfo, expiresAt: int)
      modifies this`refreshTokens
      ensures refreshTokens == old(refreshTokens)[token := Entry(info, expiresAt)]
    {
      refreshTokens := refreshTokens[token := Entry(info, expiresAt)];
    }

    method GetRefreshToken(token: Token, now: int) returns (found: Option<Entry<TokenInfo>>)
      modifies this`refreshTokens
      ensures found == Find(old(refreshTokens), token, now)
      ensures refreshTokens == Probe(token).Apply(old(refreshTokens), now)
    {
      if token !in refreshTokens {
        assert refreshTokens == Probe(token).Apply(refreshTokens, now);
        return None;
      }
      var ti := refreshTokens[token];
      if now > ti.expiresAt {
        refreshTokens := refreshTokens - {token};
        assert refreshTokens == Probe(token).Apply(old(refreshTokens), now);
        return None;
      }
      assert refreshTokens == Probe(token).Apply(refreshTokens, now);
      return Some(ti);
    }

    method DeleteRefreshToken(token: Token)
      modifies this`refreshTokens
      ensures refreshTokens == old(refreshTokens) - {token}
    {
      refreshTokens := refreshTokens - {token};
    }

    /** One tick of the cleanup loop. */
    method Sweep(now: int)
      modifies this
      ensures accessTokens == Unexpired(old(accessTokens), now)
      ensures refreshTokens == Unexpired(old(refreshTokens), now)
    {
      var todo := accessTokens.Keys;
      while todo != {}
        invariant refreshTokens == old(refreshTokens)
        invariant todo <= old(accessTokens).Keys && accessTokens == SweptExcept(old(accessTokens), todo, now)
        decreases todo
      {
        var key :| key in todo;
        if now > accessTokens[key].expiresAt {
          accessTokens := accessTokens - {key};
        }
        todo := todo - {key};
        assert accessTokens == SweptExcept(old(accessTokens), todo, now);
      }
      assert accessTokens == Unexpired(old(accessTokens), now);
      todo := refreshTokens.Keys;
      while todo != {}
        invariant accessTokens == Unexpired(old(accessTokens), now)
        invariant todo <= old(refreshTokens).Keys && refreshTokens == SweptExcept(old(refreshTokens), todo, now)
        decreases todo
      {
        var key :| key in todo;
        if now > refreshTokens[key].expiresAt {
          refreshTokens := refreshTokens - {key};
        }
        todo := todo - {key};
        assert refreshTokens == SweptExcept(old(refreshTokens), todo, now);
      }
      assert refreshTokens == Unexpired(old(refreshTokens), now);
    }
  }
}
