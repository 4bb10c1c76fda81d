/** The scope language: space-delimited scope strings and the checks made on them. */
module Scope {
  import opened Base

  // ---------------------------------------------------------------- tokenizer

  predicate SpaceFree(s: string) {
    forall k :: 0 <= k < |s| ==> s[k] != ' '
  }

  /** A scope value that a scope string can carry: non-empty and without a space. */
  predicate ScopeToken(s: string) {
    s != "" && SpaceFree(s)
  }

  /** Length of the longest space-free prefix. */
  function RunLength(s: string): (n: nat)
    ensures n <= |s|
    ensures s != "" && s[0] != ' ' ==> n > 0
  {
    if s == "" || s[0] == ' ' then 0 else 1 + RunLength(s[1..])
  }

  /** The space-free runs of `s`, in order. */
  function Fields(s: string): seq<string>
    decreases |s|
  {
    if s == "" then []
    else if s[0] == ' ' then Fields(s[1..])
    else [s[..RunLength(s)]] + Fields(s[RunLength(s)..])
  }

  function ScopeSet(s: string): set<string> {
    set f | f in Fields(s)
  }

  function Join(tokens: seq<string>): string {
    if tokens == [] then ""
    else if |tokens| == 1 then tokens[0]
    else tokens[0] + " " + Join(tokens[1..])
  }

  lemma {:induction false} RunLengthIs(s: string, n: nat)
    requires n <= |s| && SpaceFree(s[..n])
    requires n < |s| ==> s[n] == ' '
    ensures RunLength(s) == n
  {
    assert forall k :: 0 <= k < n ==> s[..n][k] == s[k];
    if n > 0 {
      assert s[1..][..n - 1] == s[..n][1..];
      RunLengthIs(s[1..], n - 1);
    }
  }

  lemma {:induction false} RunIsMaximal(s: string)
    ensures SpaceFree(s[..RunLength(s)])
    ensures RunLength(s) < |s| ==> s[RunLength(s)] == ' '
  {
    if s != "" && s[0] != ' ' {
      RunIsMaximal(s[1..]);
      assert s[..RunLength(s)] == [s[0]] + s[1..][..RunLength(s[1..])];
    }
  }

  lemma {:induction false} FieldsAreTokens(s: string)
    ensures forall f :: f in Fields(s) ==> ScopeToken(f)
    decreases |s|
  {
    if s == "" {
    } else if s[0] == ' ' {
      FieldsAreTokens(s[1..]);
    } else {
      RunIsMaximal(s);
      FieldsAreTokens(s[RunLength(s)..]);
    }
  }

  lemma FieldsOfToken(t: string)
    requires ScopeToken(t)
    ensures Fields(t) == [t]
  {
    assert t[..|t|] == t;
    RunLengthIs(t, |t|);
  }

  /** Splitting distributes over a separating space. */
  lemma {:induction false} FieldsDistribute(a: string, b: string)
    ensures Fields(a + " " + b) == Fields(a) + Fields(b)
    decreases |a|
  {
    var s := a + " " + b;
    if a == "" {
      assert s[1..] == b;
    } else if a[0] == ' ' {
      assert s[1..] == a[1..] + " " + b;
      FieldsDistribute(a[1..], b);
    } else {
      var n := RunLength(a);
      RunIsMaximal(a);
      assert s[..n] == a[..n];
      RunLengthIs(s, n);
      assert s[n..] == a[n..] + " " + b;
      FieldsDistribute(a[n..], b);
    }
  }

  /** Splitting the joined form of any list of tokens gives the list back. */
  lemma {:induction false} SplitJoinRoundTrip(tokens: seq<string>)
    requires forall t :: t in tokens ==> ScopeToken(t)
    ensures Fields(Join(tokens)) == tokens
  {
    if tokens == [] {
    } else if |tokens| == 1 {
      FieldsOfToken(tokens[0]);
    } else {
      SplitJoinRoundTrip(tokens[1..]);
      FieldsDistribute(tokens[0], Join(tokens[1..]));
      FieldsOfToken(tokens[0]);
      assert tokens == [tokens[0]] + tokens[1..];
    }
  }

  /**
   * The bounds `(lo, hi)` are the space-free stretches of `s[..upto]` that a space or an end of `s` closes on
   * both sides.
   */
  ghost predicate RunsUpTo(s: string, upto: nat, bounds: seq<(nat, nat)>)
    requires upto <= |s|
  {
    && (forall i :: 0 <= i < |bounds| ==>
          && bounds[i].0 < bounds[i].1 <= upto
          && SpaceFree(s[bounds[i].0..bounds[i].1])
          && (bounds[i].0 == 0 || s[bounds[i].0 - 1] == ' ')
          && (bounds[i].1 == |s| || s[bounds[i].1] == ' '))
    && (forall i, j :: 0 <= i < j < |bounds| ==> bounds[i].1 < bounds[j].0)
    && (forall k :: 0 <= k < upto && s[k] != ' ' ==> Covers(bounds, k))
  }

  ghost predicate Covers(bounds: seq<(nat, nat)>, k: int) {
    exists i :: 0 <= i < |bounds| && bounds[i].0 <= k < bounds[i].1
  }

  /** The bounds list exactly the maximal space-free stretches of `s`, left to right. */
  ghost predicate MaximalRuns(s: string, bounds: seq<(nat, nat)>) {
    RunsUpTo(s, |s|, bounds)
  }

  function Slices(s: string, bounds: seq<(nat, nat)>): seq<string>
    requires forall i :: 0 <= i < |bounds| ==> bounds[i].0 <= bounds[i].1 <= |s|
  {
    seq(|bounds|, i requires 0 <= i < |bounds| => s[bounds[i].0..bounds[i].1])
  }

  lemma CoversExtended(bounds: seq<(nat, nat)>, last: (nat, nat), k: int)
    requires Covers(bounds, k) || last.0 <= k < last.1
    ensures Covers(bounds + [last], k)
  {
    var longer := bounds + [last];
    if Covers(bounds, k) {
      var i :| 0 <= i < |bounds| && bounds[i].0 <= k < bounds[i].1;
      assert longer[i] == bounds[i];
    } else {
      assert longer[|bounds|] == last;
    }
  }

  lemma ExtendRuns(s: string, start: nat, hi: nat, bounds: seq<(nat, nat)>)
    requires start < hi <= |s| && RunsUpTo(s, start, bounds)
    requires start == 0 || s[start - 1] == ' '
    requires SpaceFree(s[start..hi]) && (hi == |s| || s[hi] == ' ')
    requires forall i :: 0 <= i < |bounds| ==> bounds[i].1 < start
    ensures RunsUpTo(s, hi, bounds + [(start, hi)])
  {
    hide Covers;
    forall k | 0 <= k < hi && s[k] != ' '
      ensures Covers(bounds + [(start, hi)], k)
    {
      CoversExtended(bounds, (start, hi), k);
    }
  }

  lemma ExtendSlices(s: string, bounds: seq<(nat, nat)>, last: (nat, nat))
    requires forall i :: 0 <= i < |bounds| ==> bounds[i].0 <= bounds[i].1 <= |s|
    requires last.0 <= last.1 <= |s|
    ensures Slices(s, bounds + [last]) == Slices(s, bounds) + [s[last.0..last.1]]
  {}

  /** What the splitting loop has found when the last separator it passed ends at `start`. */
  ghost predicate SplitUpTo(s: string, start: nat, parts: seq<string>, bounds: seq<(nat, nat)>)
    requires start <= |s|
  {
    && (start == 0 || s[start - 1] == ' ')
    && parts == Fields(s[..start])
    && RunsUpTo(s, start, bounds)
    && (forall i :: 0 <= i < |bounds| ==> bounds[i].1 < start)
    && parts == Slices(s, bounds)
  }

  lemma SplitAtSpace(s: string, start: nat, i: nat, parts: seq<string>, bounds: seq<(nat, nat)>)
    requires start <= i < |s| && SplitUpTo(s, start, parts, bounds)
    requires s[i] == ' ' && SpaceFree(s[start..i])
    ensures start == i ==> SplitUpTo(s, i + 1, parts, bounds)
    ensures start < i ==> SplitUpTo(s, i + 1, parts + [s[start..i]], bounds + [(start, i)])
  {
    hide Fields, Slices, Covers;
    FieldsThroughRun(s, start, i);
    if start < i {
      ExtendRuns(s, start, i, bounds);
      ExtendSlices(s, bounds, (start, i));
    }
  }

  lemma SplitAtEnd(s: string, start: nat, parts: seq<string>, bounds: seq<(nat, nat)>)
    requires start <= |s| && SplitUpTo(s, start, parts, bounds) && SpaceFree(s[start..])
    ensures start == |s| ==> parts == Fields(s) && MaximalRuns(s, bounds)
    ensures start < |s| ==>
      var longer := bounds + [(start, |s|)];
      MaximalRuns(s, longer) && parts + [s[start..]] == Fields(s) == Slices(s, longer)
  {
    hide Fields, Slices, Covers;
    FieldsOfSuffix(s, start);
    if start < |s| {
      assert s[start..|s|] == s[start..];
      ExtendRuns(s, start, |s|, bounds);
      ExtendSlices(s, bounds, (start, |s|));
    }
  }

  /** The loop of fieldSplit, run with a space as separator. */
  method FieldSplit(s: string) returns (parts: seq<string>, ghost bounds: seq<(nat, nat)>)
    ensures parts == Fields(s)
    ensures MaximalRuns(s, bounds) && parts == Slices(s, bounds)
  {
    hide Fields;
    FieldsOfEmpty();
    parts, bounds := [], [];
    var start := 0;
    for i := 0 to |s|
      invariant 0 <= start <= i && SpaceFree(s[start..i])
      invariant SplitUpTo(s, start, parts, bounds)
    {
      if s[i] == ' ' {
        SplitAtSpace(s, start, i, parts, bounds);
        if i > start {
          parts, bounds := parts + [s[start..i]], bounds + [(start, i)];
        }
        start := i + 1;
      } else {
        assert s[start..i + 1] == s[start..i] + [s[i]];
      }
    }
    assert s[start..|s|] == s[start..];
    SplitAtEnd(s, start, parts, bounds);
    if start < |s| {
      parts, bounds := parts + [s[start..]], bounds + [(start, |s|)];
    }
  }

  lemma FieldsOfEmpty()
    ensures Fields("") == []
  {}

  lemma FieldsAfterSeparator(a: string, run: string)
    requires SpaceFree(run)
    ensures Fields(a + " " + run) == Fields(a + " ") + (if run != "" then [run] else [])
  {
    hide Fields;
    FieldsOfEmpty();
    FieldsDistribute(a, "");
    assert a + " " + "" == a + " ";
    FieldsDistribute(a, run);
    if run != "" { FieldsOfToken(run); }
  }

  // The run between the last separator and the end is the last field.
  lemma FieldsOfSuffix(s: string, start: nat)
    requires start <= |s| && (start == 0 || s[start - 1] == ' ')
    requires SpaceFree(s[start..])
    ensures Fields(s) == Fields(s[..start]) + (if start < |s| then [s[start..]] else [])
  {
    hide Fields;
    FieldsOfEmpty();
    if start == 0 {
      assert s[0..] == s;
      if s != "" { FieldsOfToken(s); }
    } else {
      var a := s[..start - 1];
      assert a + " " == s[..start];
      assert a + " " + s[start..] == s;
      FieldsAfterSeparator(a, s[start..]);
    }
  }

  lemma FieldsThroughRun(s: string, start: nat, i: nat)
    requires start <= i < |s| && s[i] == ' '
    requires start == 0 || s[start - 1] == ' '
    requires SpaceFree(s[start..i])
    ensures Fields(s[..i + 1]) == Fields(s[..start]) + (if start < i then [s[start..i]] else [])
  {
    hide Fields;
    FieldsOfEmpty();
    var a := s[..i];
    assert a[start..] == s[start..i] && a[..start] == s[..start];
    FieldsOfSuffix(a, start);
    assert s[..i + 1] == a + " " + "";
    FieldsDistribute(a, "");
  }

  /** splitSpaces: splits and drops empty parts. No part is ever empty, so nothing is dropped. */
  method SplitSpaces(s: string) returns (result: seq<string>)
    ensures result == Fields(s)
  {
    if s == "" { return []; }
    result := [];
    var parts, _ := FieldSplit(s);
    FieldsAreTokens(s);
    for i := 0 to |parts|
      invariant result == parts[..i]
    {
      if parts[i] != "" {
        result := result + [parts[i]];
      }
    }
  }

  // ------------------------------------------------------------ scope checks

  method ContainsScope(scope: string, target: string) returns (found: bool)
    ensures found <==> target in ScopeSet(scope)
  {
    var fields := SplitSpaces(scope);
    for i := 0 to |fields|
      invariant target !in fields[..i]
    {
      if fields[i] == target { return true; }
    }
    assert fields[..|fields|] == fields;
    return false;
  }

  /** What a client may be granted for a requested scope string; None when a value is not registered. */
  function PermittedScope(registered: seq<string>, requested: string): Option<string> {
    if registered == [] then Some(requested)
    else if requested == "" then Some(Join(registered))
    else if forall f :: f in Fields(requested) ==> f in registered then Some(requested)
    else None
  }

  method ValidateClientScope(registered: seq<string>, requested: string) returns (granted: Option<string>)
    ensures granted == PermittedScope(registered, requested)
    ensures granted.None?
      <==> registered != [] && requested != "" && exists f :: f in ScopeSet(requested) && f !in registered
  {
    if |registered| == 0 { return Some(requested); }
    if requested == "" { return Some(Join(registered)); }
    var fields := SplitSpaces(requested);
    var allowed: map<string, bool> := map[];
    for i := 0 to |registered|
      invariant forall k :: k in allowed <==> k in registered[..i]
      invariant forall k :: k in allowed ==> allowed[k]
    {
      allowed := allowed[registered[i] := true];
    }
    assert registered[..|registered|] == registered;
    for i := 0 to |fields|
      invariant forall f :: f in fields[..i] ==> f in registered
    {
      if !(fields[i] in allowed && allowed[fields[i]]) {
        assert fields[i] in Fields(requested);
        return None;
      }
    }
    assert fields[..|fields|] == fields;
    return Some(requested);
  }

  /** A refresh request may ask for `requested` when `original` was granted. */
  predicate Narrowed(requested: string, original: string) {
    original == "" || ScopeSet(requested) <= ScopeSet(original)
  }

  method IsScopeNarrowed(requested: string, original: string) returns (ok: bool)
    ensures ok <==> Narrowed(requested, original)
    ensures ok <==> original == "" || forall f :: f in ScopeSet(requested) ==> f in ScopeSet(original)
  {
    if original == "" { return true; }
    var granted := SplitSpaces(original);
    var originalScopes: map<string, bool> := map[];
    for i := 0 to |granted|
      invariant forall k :: k in originalScopes <==> k in granted[..i]
      invariant forall k :: k in originalScopes ==> originalScopes[k]
    {
      originalScopes := originalScopes[granted[i] := true];
    }
    assert granted[..|granted|] == granted;
    var asked := SplitSpaces(requested);
    for i := 0 to |asked|
      invariant forall f :: f in asked[..i] ==> f in granted
    {
      if !(asked[i] in originalScopes && originalScopes[asked[i]]) {
        assert asked[i] in ScopeSet(requested) && asked[i] !in ScopeSet(original);
        return false;
      }
    }
    assert asked[..|asked|] == asked;
    return true;
  }

  // --------------------------------------------------------------- properties

  /** A granted scope stays inside a registration made of scope tokens, and granting again changes nothing. */
  lemma PermittedInsideRegistration(registered: seq<string>, requested: string)
    requires forall t :: t in registered ==> ScopeToken(t)
    requires PermittedScope(registered, requested).Some?
    ensures var granted := PermittedScope(registered, requested).value;
      && (registered != [] ==> ScopeSet(granted) <= set t | t in registered)
      && PermittedScope(registered, granted) == Some(granted)
  {
    if registered != [] && requested == "" {
      SplitJoinRoundTrip(registered);
    }
  }

  /** Without that well-formedness the default scope is accepted again exactly when each of its values is registered. */
  lemma DefaultScopeRevalidates(registered: seq<string>)
    ensures PermittedScope(registered, Join(registered)) == Some(Join(registered))
      <==> ScopeSet(Join(registered)) <= set t | t in registered
  {
    var scope := Join(registered);
    if ScopeSet(scope) <= set t | t in registered {
      assert forall f :: f in Fields(scope) ==> f in ScopeSet(scope);
    }
  }

  lemma DefaultScopeNotRevalidated()
    ensures PermittedScope(["a b"], "") == Some("a b")
    ensures PermittedScope(["a b"], "a b") == None
  {
    FieldsDistribute("a", "b");
    FieldsOfToken("a");
    assert "a" + " " + "b" == "a b";
    assert Fields("a b")[0] == "a" && "a" in Fields("a b");
    assert |"a"| != |"a b"|;
  }

  /** Every scope narrows to itself, and narrowing composes through `mid` exactly when `mid` is not the empty string. */
  lemma NarrowedComposes(mid: string)
    ensures (forall a, c :: Narrowed(a, mid) && Narrowed(mid, c) ==> Narrowed(a, c)) <==> mid != ""
    ensures Narrowed(mid, mid)
  {
    if mid == "" {
      FieldsOfToken("x");
      FieldsOfToken("y");
      assert "x" in ScopeSet("x") && "x" !in ScopeSet("y") by { assert "x"[0] != "y"[0]; }
      assert Narrowed("x", mid) && Narrowed(mid, "y") && !Narrowed("x", "y");
    } else {
      forall a, c | Narrowed(a, mid) && Narrowed(mid, c)
        ensures Narrowed(a, c)
      {}
    }
  }
}
