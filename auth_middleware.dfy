/** The authentication middleware (backend/src/middleware/auth.middleware.js):
    the token is the second space-separated field of the `Authorization`
    header; a token that `verify` accepts sets `req.userData`. The scheme
    word in front of it is never looked at. */
module AuthMiddleware {
  import opened Common

  /** What a middleware does with a request: pass it on, or answer it. */
  datatype Gate = Next | Reject(status: nat, message: string)

  /** `parts.join(sep)`. */
  function Join(parts: seq<string>, sep: char): string
    requires |parts| >= 1
  {
    if |parts| == 1 then parts[0] else parts[0] + [sep] + Join(parts[1..], sep)
  }

  /** `s.split(sep)` with a one-character separator: the fields between
      separators, empty ones included. */
  function Split(s: string, sep: char): (r: seq<string>)
    ensures |r| >= 1 && Join(r, sep) == s
    ensures forall i :: 0 <= i < |r| ==> sep !in r[i]
    decreases |s|
  {
    if s == [] then [""]
    else
      var rest := Split(s[1..], sep);
      if s[0] == sep then
        assert s == [sep] + s[1..];
        [""] + rest
      else
        var r := [[s[0]] + rest[0]] + rest[1..];
        assert r[1..] == rest[1..];
        assert s == [s[0]] + s[1..];
        r
  }

  /** Splitting undoes joining fields that hold no separator. */
  lemma {:induction false} SplitJoin(parts: seq<string>, sep: char)
    requires |parts| >= 1
    requires forall i :: 0 <= i < |parts| ==> sep !in parts[i]
    ensures Split(Join(parts, sep), sep) == parts
    decreases |Join(parts, sep)|, |parts|
  {
    if |parts| == 1 {
      SplitLastField(parts[0], sep);
    } else {
      SplitJoin(parts[1..], sep);
      SplitField(parts[0], parts[1..], sep);
    }
  }

  /** A character other than the separator joins the first field. */
  lemma SplitCons(c: char, t: string, sep: char)
    requires c != sep
    ensures Split([c] + t, sep) == [[c] + Split(t, sep)[0]] + Split(t, sep)[1..]
  {
    assert ([c] + t)[1..] == t;
  }

  /** A string without separators is a single field. */
  lemma {:induction false} SplitLastField(w: string, sep: char)
    requires sep !in w
    ensures Split(w, sep) == [w]
    decreases |w|
  {
    if w != [] {
      SplitLastField(w[1..], sep);
      assert [w[0]] + w[1..] == w;
    }
  }

  /** A field without separators, then a separator and a joined tail. */
  lemma {:induction false} SplitField(w: string, tail: seq<string>, sep: char)
    requires sep !in w && |tail| >= 1
    requires Split(Join(tail, sep), sep) == tail
    ensures Split(w + [sep] + Join(tail, sep), sep) == [w] + tail
    decreases |w|
  {
    var s := w + [sep] + Join(tail, sep);
    if w != [] {
      var t := w[1..] + [sep] + Join(tail, sep);
      SplitField(w[1..], tail, sep);
      assert s == [w[0]] + t;
      assert w[0] != sep by {
        assert w[0] in w;
      }
      SplitCons(w[0], t, sep);
      assert [w[0]] + w[1..] == w;
    } else {
      assert s[1..] == Join(tail, sep);
    }
  }

  /** `header.split(' ')[1]`, absent when there is no space. */
  function SecondField(header: string): (r: Option<string>)
    ensures r.Some? <==> ' ' in header
  {
    var parts := Split(header, ' ');
    if |parts| >= 2 then Some(parts[1])
    else
      assert Join(parts, ' ') == parts[0];
      None
  }

  /** The token the middleware tries: the second field, when it is present
      and not empty. An absent header makes `.split` throw. */
  function Token(header: Option<string>): Option<string> {
    if header.None? then None
    else
      var t := SecondField(header.value);
      if t.Some? && t.value != "" then t else None
  }

  /** Any scheme word is accepted in front of the token: "Bearer t",
      "Basic t" and "x t" all yield `t`, for a token without spaces. */
  lemma SchemeIgnored(scheme: string, token: string)
    requires ' ' !in scheme && ' ' !in token && token != ""
    ensures Token(Some(scheme + " " + token)) == Some(token)
  {
    SplitJoin([scheme, token], ' ');
    assert Join([scheme, token], ' ') == scheme + " " + token by {
      assert Join([scheme, token][1..], ' ') == token;
    }
  }

  /** The user id a request authenticates as, if any. */
  function Authenticated(header: Option<string>, verify: string -> Option<TokenPayload>): Option<Id> {
    var t := Token(header);
    if t.Some? && verify(t.value).Some? then Some(verify(t.value).value.userId) else None
  }

  /** The request as the middleware sees it: its header and the `userData`
      slot it fills in. */
  class Request {
    const authorization: Option<string>
    var userData: Option<Id>

    constructor (authorization: Option<string>)
      ensures this.authorization == authorization && userData.None?
    {
      this.authorization := authorization;
      userData := None;
    }
  }

  /** The middleware itself. */
  method Authenticate(req: Request, verify: string -> Option<TokenPayload>) returns (g: Gate)
    modifies req
    ensures Authenticated(req.authorization, verify).Some? ==>
              g == Next && req.userData == Authenticated(req.authorization, verify)
    ensures Authenticated(req.authorization, verify).None? ==>
              g == Reject(401, "Authentication failed") && req.userData == old(req.userData)
  {
    if req.authorization.None? {
      return Reject(401, "Authentication failed");
    }
    var token := SecondField(req.authorization.value);
    if token.None? || token.value == "" {
      return Reject(401, "Authentication failed");
    }
    var decodedToken := verify(token.value);
    if decodedToken.None? {
      return Reject(401, "Authentication failed");
    }
    req.userData := Some(decodedToken.value.userId);
    g := Next;
  }
}
