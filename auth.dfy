/**
 * The bearer-token check of the `ValidateAccessToken` middleware: the
 * Authorization header is split on single spaces and accepted only as
 * `<scheme> <token>` with a scheme equal to "bearer" ignoring case and a
 * non-empty token.
 */
module Auth {
  import opened Wrappers

  const Space: char := ' '
  const Scheme: string := "bearer"

  /** Why a header was refused; every reason is answered with 401 "Missing access token". */
  datatype AuthFailure =
    | NoHeader    // the header is absent or empty
    | NotBearer   // not exactly two space-separated parts, or the scheme is not "bearer"
    | EmptyToken  // the part after the space is empty

  /**
   * Go's `strings.Split(s, string(sep))`: the pieces between consecutive
   * separators, one more piece than there are separators; "" splits into [""].
   */
  function Split(s: string, sep: char): (parts: seq<string>)
    ensures |parts| >= 1
    ensures forall i :: 0 <= i < |parts| ==> sep !in parts[i]
    decreases |s|
  {
    if s == [] then [[]]
    else
      var rest := Split(s[1..], sep);
      if s[0] == sep then [[]] + rest
      else [[s[0]] + rest[0]] + rest[1..]
  }

  /** Go's `strings.Join(parts, string(sep))`, the inverse of Split. */
  function Join(parts: seq<string>, sep: char): string
    requires |parts| >= 1
    decreases |parts|
  {
    if |parts| == 1 then parts[0] else parts[0] + [sep] + Join(parts[1..], sep)
  }

  function LowerChar(c: char): char {
    if 'A' <= c <= 'Z' then (c as int + 32) as char else c
  }

  /** `strings.ToLower`, restricted to the ASCII letters (see README). */
  function Lower(s: string): (r: string)
    ensures |r| == |s|
    ensures forall i :: 0 <= i < |r| ==> !('A' <= r[i] <= 'Z')
    ensures forall i :: 0 <= i < |s| && !('A' <= s[i] <= 'Z') ==> r[i] == s[i]
    ensures forall i :: 0 <= i < |s| && 'A' <= s[i] <= 'Z' ==> r[i] as int == s[i] as int + 32
  {
    seq(|s|, i requires 0 <= i < |s| => LowerChar(s[i]))
  }

  /** The header check of middleware.go:43-60: the token to forward, or why it was refused. */
  function ParseAuthorization(header: string): (r: Result<string, AuthFailure>)
    ensures r.Success? ==> r.value != "" && Space !in r.value
    ensures r.Success? ==> |header| == 7 + |r.value| && header[7..] == r.value
  {
    if header == "" then Failure(NoHeader)
    else
      var parts := Split(header, Space);
      if |parts| != 2 || Lower(parts[0]) != Scheme then Failure(NotBearer)
      else if parts[1] == "" then Failure(EmptyToken)
      else
        SplitJoin(header, Space);
        assert parts[1..] == [parts[1]];
        Success(parts[1])
  }

  /**
   * Reference description of an acceptable header: six characters spelling
   * "bearer" in any case, one space, then a non-empty token free of spaces.
   */
  predicate BearerForm(header: string, token: string) {
    && |header| == 7 + |token|
    && token != ""
    && Space !in token
    && Lower(header[..6]) == Scheme
    && header[6] == Space
    && header[7..] == token
  }

  /** Splitting then joining gives back the original string. */
  lemma {:induction false} SplitJoin(s: string, sep: char)
    ensures Join(Split(s, sep), sep) == s
    decreases |s|
  {
    if s != [] {
      var rest := Split(s[1..], sep);
      SplitJoin(s[1..], sep);
      if s[0] == sep {
        var parts := [[]] + rest;
        assert parts[1..] == rest;
        assert Join(parts, sep) == [] + [sep] + Join(rest, sep);
      } else if |rest| == 1 {
        assert Split(s, sep) == [[s[0]] + rest[0]];
      } else {
        var parts := [[s[0]] + rest[0]] + rest[1..];
        assert parts[1..] == rest[1..];
        assert Join(rest, sep) == rest[0] + [sep] + Join(rest[1..], sep);
        assert Join(parts, sep) == [s[0]] + rest[0] + [sep] + Join(rest[1..], sep);
      }
    }
  }

  /** A separator-free prefix is glued onto the first piece of what follows it. */
  lemma {:induction false} SplitPrefix(p: string, tail: string, sep: char)
    requires sep !in p
    ensures Split(p + tail, sep) == [p + Split(tail, sep)[0]] + Split(tail, sep)[1..]
    decreases |p|
  {
    if p != [] {
      SplitPrefix(p[1..], tail, sep);
      assert (p + tail)[1..] == p[1..] + tail;
      assert [p[0]] + (p[1..] + Split(tail, sep)[0]) == p + Split(tail, sep)[0];
    } else {
      var t := Split(tail, sep);
      assert p + tail == tail;
      assert p + t[0] == t[0];
      assert [t[0]] + t[1..] == t;
    }
  }

  /** Joining separator-free pieces and splitting again gives back the pieces. */
  lemma {:induction false} JoinSplit(parts: seq<string>, sep: char)
    requires |parts| >= 1
    requires forall i :: 0 <= i < |parts| ==> sep !in parts[i]
    ensures Split(Join(parts, sep), sep) == parts
    decreases |parts|
  {
    if |parts| == 1 {
      SplitPrefix(parts[0], [], sep);
      assert parts[0] + [] == parts[0];
    } else {
      var rest := parts[1..];
      JoinSplit(rest, sep);
      var tail := [sep] + Join(rest, sep);
      assert Join(parts, sep) == parts[0] + tail;
      assert tail[1..] == Join(rest, sep);
      assert Split(tail, sep) == [[]] + rest;
      SplitPrefix(parts[0], tail, sep);
      assert parts[0] + [] == parts[0];
    }
  }

  function UpperChar(c: char): char {
    if 'a' <= c <= 'z' then (c as int - 32) as char else c
  }

  /**
   * Lowercasing to the scheme is equality with "bearer" ignoring case: each
   * of the six characters is the scheme's letter in small or capital form.
   */
  lemma SchemeIgnoringCase(p: string)
    ensures Lower(p) == Scheme <==>
      |p| == 6 && forall i :: 0 <= i < 6 ==> p[i] == Scheme[i] || p[i] == UpperChar(Scheme[i])
  {
    if Lower(p) == Scheme {
      forall i | 0 <= i < 6
        ensures p[i] == Scheme[i] || p[i] == UpperChar(Scheme[i])
      {
        assert Lower(p)[i] == Scheme[i];
      }
    }
    if |p| == 6 && forall i :: 0 <= i < 6 ==> p[i] == Scheme[i] || p[i] == UpperChar(Scheme[i]) {
      forall i | 0 <= i < 6
        ensures Lower(p)[i] == Scheme[i]
      {
      }
    }
  }

  /** A string that lowercases to the scheme contains no space. */
  lemma SchemeHasNoSpace(p: string)
    requires Lower(p) == Scheme
    ensures Space !in p
  {
    forall i | 0 <= i < |p|
      ensures p[i] != Space
    {
      assert Lower(p)[i] == LowerChar(p[i]) == Scheme[i];
    }
  }

  /**
   * The header is accepted with `token` exactly when it has the bearer form
   * with that token (both directions).
   */
  lemma ParseAuthorizationIff(header: string, token: string)
    ensures ParseAuthorization(header) == Success(token) <==> BearerForm(header, token)
  {
    if ParseAuthorization(header) == Success(token) {
      var parts := Split(header, Space);
      SplitJoin(header, Space);
      assert parts[1..] == [parts[1]];
      assert header == parts[0] + [Space] + parts[1];
      assert header[..6] == parts[0];
      assert header[7..] == parts[1];
    }
    if BearerForm(header, token) {
      var scheme := header[..6];
      SchemeHasNoSpace(scheme);
      var parts := [scheme, token];
      assert parts[1..] == [token];
      assert Join(parts, Space) == header;
      JoinSplit(parts, Space);
    }
  }

  /** A header is refused as absent exactly when it is empty. */
  lemma ParseNoHeader(header: string)
    ensures ParseAuthorization(header) == Failure(NoHeader) <==> header == ""
  {
  }

  /** "Bearer " followed by a non-empty, space-free token forwards that token. */
  lemma BearerHeaderAccepted(token: string)
    requires token != "" && Space !in token
    ensures ParseAuthorization("Bearer " + token) == Success(token)
  {
    var header := "Bearer " + token;
    assert header[..6] == "Bearer";
    assert header[7..] == token;
    ParseAuthorizationIff(header, token);
  }

  /** "Bearer " with nothing after it is refused because the token is empty. */
  lemma EmptyBearerRefused()
    ensures ParseAuthorization("Bearer " + "") == Failure(EmptyToken)
  {
    JoinSplit(["Bearer", ""], Space);
    assert Join(["Bearer", ""], Space) == "Bearer " + "";
  }
}
