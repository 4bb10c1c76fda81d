/**
 * What the decisions of the server come to in terms of the records alone: which client is authenticated,
 * who may log in, and which scope is granted. The theorems about requests and runs are stated with these
 * conditions, so that they speak of secrets, password hashes and sets of scope values.
 */
module Decisions {
  import opened Base
  import opened Model
  import opened Scope
  import opened Protocol

  /** The client is registered, with this secret. */
  ghost predicate HoldsSecret(s: State, clientID: string, secret: string) {
    clientID in s.clients && s.clients[clientID].secret == secret
  }

  /** It may use the grant, too. */
  ghost predicate CorrectClient(s: State, clientID: string, secret: string, grant: GrantType) {
    HoldsSecret(s, clientID, secret) && grant in s.clients[clientID].grants
  }

  lemma AuthenticatesIff(s: State, clientID: string, secret: string, grant: GrantType)
    ensures var r := AuthenticateClient(s, clientID, secret, grant);
      && (r.Ok? <==> CorrectClient(s, clientID, secret, grant))
      && (r.Ok? ==> r.value == s.clients[clientID])
  {}

  /** There is a user of that name, and the password matches the stored hash. */
  ghost predicate CorrectLogin(cfg: Config, users: Users, username: string, password: string) {
    && username in users.byUsername
    && cfg.passwordMatches(users.byUsername[username].passwordHash, password)
  }

  lemma LogsInIff(cfg: Config, users: Users, username: string, password: string)
    ensures var r := Authenticate(cfg, users, username, password);
      && (r.Some? <==> CorrectLogin(cfg, users, username, password))
      && (r.Some? ==> r.value == users.byUsername[username].id)
  {}

  /** The client may be granted the scope: nothing is asked for, or only values that it has registered. */
  ghost predicate MayHave(registered: seq<string>, asked: string) {
    asked == "" || registered == [] || ScopeSet(asked) <= set t | t in registered
  }

  /** The scope a client gets when it may have what it asks for; asking for nothing means everything registered. */
  function ScopeFor(registered: seq<string>, asked: string): string {
    if asked == "" then Join(registered) else asked
  }

  lemma PermittedExactly(registered: seq<string>, asked: string)
    ensures PermittedScope(registered, asked)
      == if MayHave(registered, asked) then Some(ScopeFor(registered, asked)) else None
  {
    if registered != [] && asked != "" {
      assert forall f :: f in Fields(asked) <==> f in ScopeSet(asked);
      assert forall f :: f in registered <==> f in set t | t in registered;
    }
  }

  /**
   * A refresh that asks for nothing is about the original scope; one that asks for a scope may not ask for a
   * value outside a non-empty original scope.
   */
  ghost predicate MayRefresh(registered: seq<string>, asked: string, original: string) {
    if asked == "" then MayHave(registered, original)
    else MayHave(registered, asked) && (original == "" || ScopeSet(asked) <= ScopeSet(original))
  }

  function RefreshedFor(registered: seq<string>, asked: string, original: string): string {
    ScopeFor(registered, if asked == "" then original else asked)
  }

  lemma RefreshedExactly(registered: seq<string>, asked: string, original: string)
    ensures var r := RefreshedScope(registered, asked, original);
      && (r.Ok? <==> MayRefresh(registered, asked, original))
      && (r.Ok? ==> r.value == RefreshedFor(registered, asked, original))
      && (r == Err(ScopeNotAllowed) <==> !MayHave(registered, if asked == "" then original else asked))
      && (r.Err? ==> r.error == ScopeNotAllowed || r.error == ScopeExceedsGrant)
  {
    hide MayHave, ScopeSet;
    PermittedExactly(registered, if asked == "" then original else asked);
  }
}
