/** The credential check of `AuthHTTPRequestHandler` in secure_file_server.py:
    an HTTP Basic `Authorization` header (section 2 of RFC 7617) is accepted
    when its token decodes to `user:password` and the pair is in a fixed table.
    Every failure on the way is a refusal, never an error. */
module BasicAuth {
  import opened Wrappers
  import opened Bytes
  import Base64
  import Utf8

  /** The table of accepted users and their passwords. */
  const AuthorizedUsers: map<string, string> := map["j" := "joyonta", "p" := "priyanghsu"]

  const Realm := "Secure File Server"

  // ---- Python's str.split(sep) and str.split(sep, 1) ----

  /** The fields `fs` joined back together with `sep` between them. */
  function Join(fs: seq<string>, sep: char): string {
    if |fs| == 0 then ""
    else if |fs| == 1 then fs[0]
    else fs[0] + [sep] + Join(fs[1..], sep)
  }

  /** `s.split(sep)` with an explicit separator: every occurrence separates two
      fields, so empty fields are kept and there is always at least one field. */
  function Split(s: string, sep: char): (fs: seq<string>)
    ensures |fs| >= 1
    ensures Join(fs, sep) == s
    ensures forall i :: 0 <= i < |fs| ==> sep !in fs[i]
    decreases |s|
  {
    if |s| == 0 then [""]
    else
      var rest := Split(s[1..], sep);
      if s[0] == sep then [""] + rest
      else [[s[0]] + rest[0]] + rest[1..]
  }

  /** The fields of a string are determined by it: any separator-free fields
      that join to `s` are `Split(s, sep)`. */
  lemma {:induction false} SplitUnique(fs: seq<string>, sep: char)
    requires |fs| >= 1
    requires forall i :: 0 <= i < |fs| ==> sep !in fs[i]
    ensures Split(Join(fs, sep), sep) == fs
    decreases |Join(fs, sep)|, |fs[0]|
  {
    var s := Join(fs, sep);
    if |fs| == 1 {
      if fs[0] != "" {
        var tail := fs[0][1..];
        assert s[1..] == tail;
        SplitUnique([tail], sep);
        assert tail == Join([tail], sep);
        assert fs[0] == [fs[0][0]] + tail;
        assert [[fs[0][0]] + tail] == fs;
      }
    } else if fs[0] == "" {
      assert s == [sep] + Join(fs[1..], sep);
      assert s[1..] == Join(fs[1..], sep);
      SplitUnique(fs[1..], sep);
      assert [""] + fs[1..] == fs;
    } else {
      var gs := [fs[0][1..]] + fs[1..];
      assert gs[1..] == fs[1..];
      assert Join(gs, sep) == fs[0][1..] + [sep] + Join(fs[1..], sep);
      assert s == [fs[0][0]] + Join(gs, sep);
      assert s[1..] == Join(gs, sep);
      assert s[0] == fs[0][0] && s[0] != sep;
      SplitUnique(gs, sep);
      assert fs[0] == [fs[0][0]] + gs[0];
      assert [[fs[0][0]] + gs[0]] + gs[1..] == fs;
    }
  }

  /** `s.split(sep, 1)` unpacked into exactly two names: the text before the
      first `sep` and everything after it; None (Python's ValueError) when
      `sep` does not occur. */
  function Partition(s: string, sep: char): (r: Option<(string, string)>)
    ensures r.None? <==> sep !in s
    ensures r.Some? ==> sep !in r.value.0 && r.value.0 + [sep] + r.value.1 == s
    decreases |s|
  {
    if |s| == 0 then None
    else if s[0] == sep then Some(("", s[1..]))
    else
      match Partition(s[1..], sep)
      case None => None
      case Some((before, after)) => Some(([s[0]] + before, after))
  }

  /** Only the first separator splits: whatever follows it, separators
      included, is the second part. */
  lemma {:induction false} PartitionAtFirst(before: string, sep: char, after: string)
    requires sep !in before
    ensures Partition(before + [sep] + after, sep) == Some((before, after))
  {
    var s := before + [sep] + after;
    if before != [] {
      assert s[1..] == before[1..] + [sep] + after;
      PartitionAtFirst(before[1..], sep, after);
      assert [before[0]] + before[1..] == before;
    }
  }

  // ---- check_auth ----

  /** `auth_header.split(' ')[1]`; None (IndexError) when there is no space.
      The first field, the scheme word, is not looked at. */
  function Token(header: string): (r: Option<string>)
    ensures r.None? <==> ' ' !in header
    ensures r.Some? ==> ' ' !in r.value
  {
    var fields := Split(header, ' ');
    if |fields| >= 2 then Some(fields[1])
    else
      assert header == Join(fields, ' ') == fields[0];
      None
  }

  /** The token is the text between the first and the second space (or the
      end), whatever the scheme word before it and whatever follows it. */
  lemma TokenOf(scheme: string, token: string, rest: string)
    requires ' ' !in scheme && ' ' !in token
    requires rest == "" || rest[0] == ' '
    ensures Token(scheme + " " + token + rest) == Some(token)
  {
    var header := scheme + " " + token + rest;
    if rest == "" {
      assert header == scheme + " " + token;
      assert Join([scheme, token], ' ') == header;
      SplitUnique([scheme, token], ' ');
    } else {
      var gs := Split(rest[1..], ' ');
      var fs := [scheme, token] + gs;
      assert fs[1..] == [token] + gs;
      assert fs[1..][1..] == gs;
      assert Join(fs[1..], ' ') == token + [' '] + Join(gs, ' ');
      assert Join(fs, ' ') == scheme + [' '] + (token + [' '] + rest[1..]);
      assert rest == [' '] + rest[1..];
      assert Join(fs, ' ') == header;
      SplitUnique(fs, ' ');
    }
  }

  /** The user and password a header carries, or None at the first step that
      Python would raise on: no token, bad base64, bad UTF-8, no colon. */
  function Credentials(header: string): (r: Option<(string, string)>)
    ensures r.Some? ==> ':' !in r.value.0
    ensures r.Some? ==> && Token(header).Some?
                        && Base64.Decode(Token(header).value).Some?
                        && Utf8.Decode(Base64.Decode(Token(header).value).value)
                           == Some(r.value.0 + [':'] + r.value.1)
    ensures (Token(header).None? || Base64.Decode(Token(header).value).None?) ==> r.None?
    ensures && Token(header).Some?
            && Base64.Decode(Token(header).value).Some?
            && Utf8.Decode(Base64.Decode(Token(header).value).value).Some?
            ==> r == Partition(Utf8.Decode(Base64.Decode(Token(header).value).value).value, ':')
  {
    match Token(header)
    case None => None
    case Some(token) =>
      match Base64.Decode(token)
      case None => None
      case Some(octets) =>
        match Utf8.Decode(octets)
        case None => None
        case Some(text) => Partition(text, ':')
  }

  /** check_auth: a missing header is refused; otherwise the header is
      accepted exactly when it carries a pair that is in the table. */
  function CheckAuth(authorization: Option<string>): (ok: bool)
    ensures authorization.None? ==> !ok
    ensures ok <==> authorization.Some? &&
                    exists user, password :: Credentials(authorization.value) == Some((user, password)) &&
                                             user in AuthorizedUsers && AuthorizedUsers[user] == password
  {
    match authorization
    case None => false
    case Some(header) =>
      match Credentials(header)
      case None => false
      case Some((user, password)) => user in AuthorizedUsers && AuthorizedUsers[user] == password
  }

  /** The header a client builds for a user and a password. */
  function BasicHeader(scheme: string, user: string, password: string): string {
    scheme + " " + Base64.Encode(Utf8.Encode(user + ":" + password))
  }

  /** Round trip: for a user name without a colon, the header built from the
      pair is accepted iff the table gives that user exactly that password,
      whatever the scheme word is and whatever further space-separated fields
      follow the token. */
  lemma {:induction false} AcceptsBuiltHeader(scheme: string, user: string, password: string, rest: string)
    requires ' ' !in scheme && ':' !in user
    requires rest == "" || rest[0] == ' '
    ensures CheckAuth(Some(BasicHeader(scheme, user, password) + rest))
            <==> user in AuthorizedUsers && AuthorizedUsers[user] == password
  {
    var text := user + ":" + password;
    var octets := Utf8.Encode(text);
    var token := Base64.Encode(octets);
    Base64.EncodeHasNoSpace(octets);
    TokenOf(scheme, token, rest);
    Base64.DecodeEncode(octets);
    Utf8.DecodeEncode(text);
    PartitionAtFirst(user, ':', password);
    assert Credentials(BasicHeader(scheme, user, password) + rest) == Some((user, password));
  }

  /** A header without a space is refused (IndexError in the source). */
  lemma RefusesWithoutSpace(header: string)
    requires ' ' !in header
    ensures !CheckAuth(Some(header))
  {
  }

  /** A token that is not strict base64 is refused. */
  lemma RefusesBadBase64(scheme: string, token: string)
    requires ' ' !in scheme && ' ' !in token && Base64.Decode(token).None?
    ensures !CheckAuth(Some(scheme + " " + token))
  {
    TokenOf(scheme, token, "");
    assert scheme + " " + token + "" == scheme + " " + token;
  }

  /** Decoded octets that are not UTF-8 are refused. */
  lemma RefusesBadUtf8(scheme: string, octets: seq<byte>)
    requires ' ' !in scheme && Utf8.Decode(octets).None?
    ensures !CheckAuth(Some(scheme + " " + Base64.Encode(octets)))
  {
    Base64.EncodeHasNoSpace(octets);
    TokenOf(scheme, Base64.Encode(octets), "");
    assert scheme + " " + Base64.Encode(octets) + "" == scheme + " " + Base64.Encode(octets);
    Base64.DecodeEncode(octets);
  }

  /** Decoded text without a colon is refused. */
  lemma RefusesWithoutColon(scheme: string, text: string)
    requires ' ' !in scheme && ':' !in text
    ensures !CheckAuth(Some(scheme + " " + Base64.Encode(Utf8.Encode(text))))
  {
    var octets := Utf8.Encode(text);
    Base64.EncodeHasNoSpace(octets);
    TokenOf(scheme, Base64.Encode(octets), "");
    assert scheme + " " + Base64.Encode(octets) + "" == scheme + " " + Base64.Encode(octets);
    Base64.DecodeEncode(octets);
    Utf8.DecodeEncode(text);
  }

  // ---- do_GET, do_HEAD, do_AUTHHEAD ----

  datatype Verb = Get | Head

  /** What the handler does with a request: hand it to the file server, or
      send the 401 challenge of do_AUTHHEAD. */
  datatype Reply =
    | ServeFile(verb: Verb)
    | Challenge(status: int, headers: seq<(string, string)>, body: string)

  /** do_AUTHHEAD: status 401, a Basic challenge for the realm, an HTML body. */
  function AuthHead(): (r: Reply)
    ensures r.Challenge? && r.status == 401
    ensures ("WWW-Authenticate", "Basic realm=\"" + Realm + "\"") in r.headers
  {
    Challenge(401, [("WWW-Authenticate", "Basic realm=\"" + Realm + "\""),
                    ("Content-type", "text/html")],
              "Authentication required")
  }

  /** do_GET and do_HEAD: serve iff check_auth passes, otherwise challenge. */
  function Handle(verb: Verb, authorization: Option<string>): (r: Reply)
    ensures r.ServeFile? <==> CheckAuth(authorization)
    ensures r.ServeFile? ==> r.verb == verb
    ensures !CheckAuth(authorization) ==> r == AuthHead()
  {
    if CheckAuth(authorization) then ServeFile(verb) else AuthHead()
  }

  function DoGet(authorization: Option<string>): (r: Reply)
    ensures r == ServeFile(Get) || r == AuthHead()
    ensures r == ServeFile(Get) <==> CheckAuth(authorization)
  {
    Handle(Get, authorization)
  }

  function DoHead(authorization: Option<string>): (r: Reply)
    ensures r == ServeFile(Head) || r == AuthHead()
    ensures r == ServeFile(Head) <==> CheckAuth(authorization)
  {
    Handle(Head, authorization)
  }

  /** A request with no Authorization header is always challenged. */
  lemma MissingHeaderIsChallenged(verb: Verb)
    ensures Handle(verb, None) == AuthHead()
  {
  }
}
