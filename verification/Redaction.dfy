/** Redaction of logged request bodies: what it hides, and what it keeps. */
module Redaction {
  import opened Base

  datatype Json =
    | Null
    | Bool(b: bool)
    | Number(n: real)
    | Str(s: string)
    | Arr(items: seq<Json>)
    | Obj(fields: map<string, Json>)

  const SENSITIVE: set<string> :=
    {"client_secret", "password", "code_verifier", "refresh_token", "access_token", "client_secret_id"}

  const REDACTED: string := "[REDACTED]"

  function Redact(v: Json): Json {
    match v
    case Obj(fields) => Obj(map key | key in fields :: if key in SENSITIVE then Str(REDACTED) else Redact(fields[key]))
    case Arr(items) => Arr(seq(|items|, i requires 0 <= i < |items| => Redact(items[i])))
    case _ => v
  }

  /** redactJSON. */
  method RedactJson(v: Json) returns (r: Json)
    ensures r == Redact(v)
    decreases v
  {
    match v {
      case Obj(fields) =>
        var result: map<string, Json> := map[];
        var todo := fields.Keys;
        while todo != {}
          invariant todo <= fields.Keys && result.Keys == fields.Keys - todo
          invariant forall key :: key in result ==>
                                    result[key] == if key in SENSITIVE then Str(REDACTED) else Redact(fields[key])
          decreases todo
        {
          var key :| key in todo;
          if key in SENSITIVE {
            result := result[key := Str(REDACTED)];
          } else {
            var inner := RedactJson(fields[key]);
            result := result[key := inner];
          }
          todo := todo - {key};
        }
        assert result == Redact(v).fields;
        return Obj(result);
      case Arr(items) =>
        var result: seq<Json> := [];
        for i := 0 to |items|
          invariant |result| == i && forall k :: 0 <= k < i ==> result[k] == Redact(items[k])
        {
          var inner := RedactJson(items[i]);
          result := result + [inner];
        }
        assert result == Redact(v).items;
        return Arr(result);
      case _ => return v;
    }
  }

  /** The two values differ at most below sensitive keys. */
  ghost predicate SameOutsideSecrets(a: Json, b: Json)
    decreases a
  {
    match (a, b)
    case (Obj(f), Obj(g)) =>
      && f.Keys == g.Keys
      && forall key :: key in f && key !in SENSITIVE ==> SameOutsideSecrets(f[key], g[key])
    case (Arr(x), Arr(y)) =>
      && |x| == |y|
      && forall i :: 0 <= i < |x| ==> SameOutsideSecrets(x[i], y[i])
    case _ => a == b
  }

  /**
   * Redaction identifies exactly the values that differ only below sensitive keys: it leaks nothing else and
   * loses nothing else.
   */
  lemma {:induction false} RedactsExactlySecrets(a: Json, b: Json)
    ensures Redact(a) == Redact(b) <==> SameOutsideSecrets(a, b)
    decreases a
  {
    if a.Obj? && b.Obj? {
      var f, g := a.fields, b.fields;
      var rf, rg := Redact(a).fields, Redact(b).fields;
      assert rf.Keys == f.Keys && rg.Keys == g.Keys;
      forall key | key in f && key in g && key !in SENSITIVE
        ensures Redact(f[key]) == Redact(g[key]) <==> SameOutsideSecrets(f[key], g[key])
      {
        RedactsExactlySecrets(f[key], g[key]);
      }
      if SameOutsideSecrets(a, b) {
        assert rf == rg;
      }
      if rf == rg {
        forall key | key in f && key !in SENSITIVE
          ensures SameOutsideSecrets(f[key], g[key])
        {
          assert rf[key] == rg[key];
        }
      }
    } else if a.Arr? && b.Arr? {
      var x, y := a.items, b.items;
      var rx, ry := Redact(a).items, Redact(b).items;
      forall i | 0 <= i < |x| && i < |y|
        ensures Redact(x[i]) == Redact(y[i]) <==> SameOutsideSecrets(x[i], y[i])
      {
        RedactsExactlySecrets(x[i], y[i]);
      }
      if SameOutsideSecrets(a, b) {
        assert rx == ry;
      }
      if rx == ry {
        forall i | 0 <= i < |x|
          ensures SameOutsideSecrets(x[i], y[i])
        {
          assert rx[i] == ry[i];
        }
      }
    }
  }

  lemma {:induction false} RedactedIsSimilar(v: Json)
    ensures SameOutsideSecrets(Redact(v), v)
    decreases v
  {
    match v {
      case Obj(fields) =>
        forall key | key in fields && key !in SENSITIVE
          ensures SameOutsideSecrets(Redact(fields[key]), fields[key])
        {
          RedactedIsSimilar(fields[key]);
        }
      case Arr(items) =>
        forall i | 0 <= i < |items|
          ensures SameOutsideSecrets(Redact(items[i]), items[i])
        {
          RedactedIsSimilar(items[i]);
        }
      case _ =>
    }
  }

  lemma {:induction false} RedactIdempotent(v: Json)
    ensures Redact(Redact(v)) == Redact(v)
  {
    RedactedIsSimilar(v);
    RedactsExactlySecrets(Redact(v), v);
  }

  // -------------------------------------------------------------------- by path

  datatype Selector = Field(key: string) | Index(i: nat)

  function Select(v: Json, path: seq<Selector>): Option<Json>
    decreases |path|
  {
    if path == [] then Some(v)
    else
      match (v, path[0])
      case (Obj(fields), Field(key)) => if key in fields then Select(fields[key], path[1..]) else None
      case (Arr(items), Index(i)) => if i < |items| then Select(items[i], path[1..]) else None
      case _ => None
  }

  predicate Crosses(path: seq<Selector>) {
    exists i :: 0 <= i < |path| && path[i].Field? && path[i].key in SENSITIVE
  }

  /** A path without a sensitive key selects the same thing before and after, redacted; whole leaves are kept. */
  lemma {:induction false} OtherPathsKept(v: Json, path: seq<Selector>)
    requires !Crosses(path)
    ensures Select(v, path).None? ==> Select(Redact(v), path).None?
    ensures Select(v, path).Some? ==> Select(Redact(v), path) == Some(Redact(Select(v, path).value))
    decreases |path|
  {
    if path != [] {
      assert !(path[0].Field? && path[0].key in SENSITIVE);
      assert forall i :: 0 <= i < |path| - 1 ==> path[1..][i] == path[i + 1];
      match (v, path[0]) {
        case (Obj(fields), Field(key)) => if key in fields { OtherPathsKept(fields[key], path[1..]); }
        case (Arr(items), Index(i)) => if i < |items| { OtherPathsKept(items[i], path[1..]); }
        case _ =>
      }
    }
  }

  /** A path that ends at a sensitive key selects the marker, and nothing can be selected below it. */
  lemma {:induction false} SecretPathsHidden(v: Json, path: seq<Selector>, below: seq<Selector>)
    requires !Crosses(path) && below != [] && Crosses(below[..1])
    ensures Select(Redact(v), path + below)
      == (if |below| == 1 && Select(v, path + below).Some? then Some(Str(REDACTED)) else None)
    decreases |path|
  {
    if path == [] {
      assert path + below == below;
      assert below[..1][0] == below[0] && below[0].Field? && below[0].key in SENSITIVE;
    } else {
      assert !(path[0].Field? && path[0].key in SENSITIVE);
      assert forall i :: 0 <= i < |path| - 1 ==> path[1..][i] == path[i + 1];
      assert (path + below)[1..] == path[1..] + below && (path + below)[0] == path[0];
      match (v, path[0]) {
        case (Obj(fields), Field(key)) => if key in fields { SecretPathsHidden(fields[key], path[1..], below); }
        case (Arr(items), Index(i)) => if i < |items| { SecretPathsHidden(items[i], path[1..], below); }
        case _ =>
      }
    }
  }

  // ------------------------------------------------------------------ form values

  function RedactedForm(form: map<string, seq<string>>): map<string, seq<string>> {
    map key | key in form :: if key in SENSITIVE then [REDACTED] else form[key]
  }

  /** redactForm. */
  method RedactForm(form: map<string, seq<string>>) returns (result: map<string, seq<string>>)
    ensures result == RedactedForm(form)
  {
    result := map[];
    var todo := form.Keys;
    while todo != {}
      invariant todo <= form.Keys && result.Keys == form.Keys - todo
      invariant forall key :: key in result ==> result[key] == if key in SENSITIVE then [REDACTED] else form[key]
      decreases todo
    {
      var key :| key in todo;
      if key in SENSITIVE {
        result := result[key := [REDACTED]];
      } else {
        result := result[key := form[key]];
      }
      todo := todo - {key};
    }
    assert result == RedactedForm(form);
  }

  /**
   * A logged form shows the values of every parameter but six: the client's secret under two names, the
   * user's password, the PKCE verifier and the two tokens.
   */
  lemma FormHidesExactlySecrets(form: map<string, seq<string>>, key: string)
    requires key in form && form[key] != ["[REDACTED]"]
    ensures var hidden := key == "client_secret" || key == "client_secret_id" || key == "password"
        || key == "code_verifier" || key == "refresh_token" || key == "access_token";
      RedactedForm(form).Keys == form.Keys
      && RedactedForm(form)[key] == if hidden then ["[REDACTED]"] else form[key]
  {
    assert RedactedForm(form).Keys == form.Keys;
  }

  /** Two forms are logged alike exactly when they have the same keys and agree on every key that is not sensitive. */
  lemma FormRedactsExactlySecrets(a: map<string, seq<string>>, b: map<string, seq<string>>)
    ensures RedactedForm(a) == RedactedForm(b)
      <==> a.Keys == b.Keys && forall key :: key in a && key in b && key !in SENSITIVE ==> a[key] == b[key]
  {
    var ra, rb := RedactedForm(a), RedactedForm(b);
    assert ra.Keys == a.Keys && rb.Keys == b.Keys;
    if ra == rb {
      forall key | key in a && key in b && key !in SENSITIVE
        ensures a[key] == b[key]
      {
        assert ra[key] == rb[key];
      }
    }
  }
}
