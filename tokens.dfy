/** `authenticateToken`'s decision: the token is the second space-separated
    piece of the `Authorization` header (section 2.1 of RFC 6750 writes it as
    `Bearer <token>`, but the scheme word is never looked at), and the abstract
    `jwt.verify` decides between 403 and admission. */
module Tokens {
  import opened Wrappers
  import opened Collaborators

  /** `s.split(sep)` for a one-character separator: the pieces between
      separators, in order, with empty pieces kept (`"".split(" ")` is `[""]`). */
  function Split(s: string, sep: char): (pieces: seq<string>)
    ensures |pieces| >= 1
    ensures forall i :: 0 <= i < |pieces| ==> sep !in pieces[i]
    decreases |s|
  {
    if s == [] then [""]
    else
      var rest := Split(s[1..], sep);
      if s[0] == sep then [""] + rest
      else [[s[0]] + rest[0]] + rest[1..]
  }

  /** `pieces.join(sep)`: the inverse of `Split`. */
  function Join(pieces: seq<string>, sep: char): string
    decreases |pieces|
  {
    if pieces == [] then ""
    else if |pieces| == 1 then pieces[0]
    else pieces[0] + [sep] + Join(pieces[1..], sep)
  }

  /** Splitting loses nothing: the pieces joined back give the header. */
  lemma {:induction false} JoinSplit(s: string, sep: char)
    ensures Join(Split(s, sep), sep) == s
    decreases |s|
  {
    if s != [] {
      JoinSplit(s[1..], sep);
      var rest := Split(s[1..], sep);
      if s[0] == sep {
        assert ([""] + rest)[1..] == rest;
      } else if |rest| > 1 {
        assert ([[s[0]] + rest[0]] + rest[1..])[1..] == rest[1..];
        assert [s[0]] + rest[0] + [sep] + Join(rest[1..], sep) == [s[0]] + Join(rest, sep);
      }
    }
  }

  /** A word without the separator is a single piece. */
  lemma {:induction false} SplitWord(w: string, sep: char)
    requires sep !in w
    ensures Split(w, sep) == [w]
    decreases |w|
  {
    if w != [] {
      SplitWord(w[1..], sep);
      assert [w[0]] + w[1..] == w;
    }
  }

  /** The first separator ends the first piece; splitting goes on after it. */
  lemma {:induction false} SplitAtSeparator(w: string, sep: char, s: string)
    requires sep !in w
    ensures Split(w + [sep] + s, sep) == [w] + Split(s, sep)
    decreases |w|
  {
    if w == [] {
      assert ([] + [sep] + s)[1..] == s;
    } else {
      SplitAtSeparator(w[1..], sep, s);
      assert (w + [sep] + s)[1..] == w[1..] + [sep] + s;
      assert [w[0]] + w[1..] == w;
    }
  }

  /** Joining pieces free of the separator and splitting again gives them back. */
  lemma {:induction false} SplitJoin(pieces: seq<string>, sep: char)
    requires |pieces| >= 1
    requires forall i :: 0 <= i < |pieces| ==> sep !in pieces[i]
    ensures Split(Join(pieces, sep), sep) == pieces
    decreases |pieces|
  {
    if |pieces| == 1 {
      SplitWord(pieces[0], sep);
    } else {
      SplitJoin(pieces[1..], sep);
      SplitAtSeparator(pieces[0], sep, Join(pieces[1..], sep));
      assert [pieces[0]] + pieces[1..] == pieces;
    }
  }

  /** A string splits into more than one piece exactly when it holds the separator. */
  lemma {:induction false} SplitPiecesCount(s: string, sep: char)
    ensures |Split(s, sep)| >= 2 <==> sep in s
    decreases |s|
  {
    if s != [] {
      SplitPiecesCount(s[1..], sep);
      assert s == [s[0]] + s[1..];
    }
  }

  /** `authHeader && authHeader.split(" ")[1]`: `None` is `undefined`; an empty
      header short-circuits to the empty string. */
  function TokenOf(header: Option<string>): (t: Option<string>)
    ensures header.None? ==> t.None?
    ensures header == Some("") ==> t == Some("")
    ensures header.Some? && header.value != "" ==> (t.Some? <==> ' ' in header.value)
    ensures t.Some? ==> ' ' !in t.value
  {
    match header
    case None => None
    case Some(h) =>
      SplitPiecesCount(h, ' ');
      if h == "" then Some("")
      else
        var pieces := Split(h, ' ');
        if |pieces| >= 2 then Some(pieces[1]) else None
  }

  /** Whatever the scheme word, the token is the text between the first space
      and the next one (or the end of the header). */
  lemma {:induction false} TokenIsSecondWord(scheme: string, token: string, rest: string)
    requires ' ' !in scheme && ' ' !in token
    requires rest == [] || rest[0] == ' '
    ensures TokenOf(Some(scheme + " " + token + rest)) == Some(token)
  {
    var h := scheme + " " + token + rest;
    assert h == scheme + [' '] + (token + rest);
    SplitAtSeparator(scheme, ' ', token + rest);
    if rest == [] {
      assert token + rest == token;
      SplitWord(token, ' ');
    } else {
      assert token + rest == token + [' '] + rest[1..];
      SplitAtSeparator(token, ' ', rest[1..]);
    }
  }

  /** A header with no space carries no token. */
  lemma {:induction false} NoSpaceNoToken(h: string)
    requires ' ' !in h
    ensures !Truthy(TokenOf(Some(h)))
  {
    SplitWord(h, ' ');
  }

  const NoTokenMessage := "Access denied. No token provided."
  const BadTokenMessage := "Invalid token."

  /** What the middleware does with a request: answer it itself, or set
      `req.user` and hand it on. */
  datatype Verdict = Denied(status: nat, message: string) | Admitted(user: Claims)

  /** `authenticateToken` without its side effects: 401 for a falsy token,
      403 when `verify` throws, otherwise the decoded payload. */
  function Gate(header: Option<string>, verify: string -> Option<Claims>): (v: Verdict)
    ensures v.Admitted? ==> Truthy(TokenOf(header)) && verify(TokenOf(header).value) == Some(v.user)
    ensures v.Denied? ==> v.status == 401 || v.status == 403
  {
    var token := TokenOf(header);
    if !Truthy(token) then Denied(401, NoTokenMessage)
    else
      match verify(token.value)
      case None => Denied(403, BadTokenMessage)
      case Some(claims) => Admitted(claims)
  }

  /** No header, or a header with no space in it (`"Bearer"`), gives 401
      before any verification. */
  lemma {:induction false} MissingTokenDenied(header: Option<string>, verify: string -> Option<Claims>)
    requires header.None? || ' ' !in header.value
    ensures Gate(header, verify) == Denied(401, NoTokenMessage)
  {
    if header.Some? { NoSpaceNoToken(header.value); }
  }

  /** An empty second piece (`"Bearer "`, `"Bearer  abc"`) gives 401 too. */
  lemma {:induction false} EmptyTokenDenied(scheme: string, rest: string, verify: string -> Option<Claims>)
    requires ' ' !in scheme
    requires rest == [] || rest[0] == ' '
    ensures Gate(Some(scheme + " " + rest), verify) == Denied(401, NoTokenMessage)
  {
    TokenIsSecondWord(scheme, "", rest);
    assert scheme + " " + "" + rest == scheme + " " + rest;
  }

  /** A present token that `verify` refuses gives 403, whatever the scheme. */
  lemma {:induction false} RejectedTokenForbidden(scheme: string, token: string, rest: string,
                                                  verify: string -> Option<Claims>)
    requires ' ' !in scheme && ' ' !in token && token != ""
    requires rest == [] || rest[0] == ' '
    requires verify(token) == None
    ensures Gate(Some(scheme + " " + token + rest), verify) == Denied(403, BadTokenMessage)
  {
    TokenIsSecondWord(scheme, token, rest);
  }

  /** A present token that `verify` accepts admits the request with exactly
      the decoded payload, whatever the scheme. */
  lemma {:induction false} VerifiedTokenAdmitted(scheme: string, token: string, rest: string,
                                                 verify: string -> Option<Claims>)
    requires ' ' !in scheme && ' ' !in token && token != ""
    requires rest == [] || rest[0] == ' '
    requires verify(token).Some?
    ensures Gate(Some(scheme + " " + token + rest), verify) == Admitted(verify(token).value)
  {
    TokenIsSecondWord(scheme, token, rest);
  }
}
