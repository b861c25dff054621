/** The logic of `initOtel` in frontend/src/otel.js: nothing is set up without
    an exporter URL, and trace headers are allowed only on URLs that start with
    the API base, matched by a regular expression built from it. Only the
    pattern's source text is modelled. */
module Otel {
  import opened Wrappers
  import Config

  const ServiceName := "delineate-frontend"

  /** The characters of the class `[-/\\^$*+?.()|[\]{}]`. */
  predicate IsSpecial(c: char)
    ensures IsSpecial(c) <==> c in "-/\\^$*+?.()|[]{}"
  {
    || c == '-' || c == '/' || c == '\\' || c == '^' || c == '$' || c == '*' || c == '+' || c == '?'
    || c == '.' || c == '(' || c == ')' || c == '|' || c == '[' || c == ']' || c == '{' || c == '}'
  }

  /** The number of special characters in `s`. */
  function SpecialCount(s: string): nat {
    if s == [] then 0 else (if IsSpecial(s[0]) then 1 else 0) + SpecialCount(s[1..])
  }

  /** `s.replace(/[-/\\^$*+?.()|[\]{}]/g, "\\$&")`: one backslash goes in front
      of each special character, so the length grows by one per special
      character and by nothing else. */
  function Escape(s: string): (t: string)
    ensures |t| == |s| + SpecialCount(s)
    ensures s == [] <==> t == []
  {
    if s == [] then []
    else (if IsSpecial(s[0]) then ['\\', s[0]] else [s[0]]) + Escape(s[1..])
  }

  /** Reading an escaped pattern back: a backslash must be followed by a
      special character, and a special character must follow a backslash. */
  function Unescape(t: string): Option<string>
    decreases |t|
  {
    if t == [] then Some([])
    else if t[0] == '\\' then
      if |t| >= 2 && IsSpecial(t[1]) then
        match Unescape(t[2..])
        case None => None
        case Some(rest) => Some([t[1]] + rest)
      else None
    else if IsSpecial(t[0]) then None
    else
      match Unescape(t[1..])
      case None => None
      case Some(rest) => Some([t[0]] + rest)
  }

  /** Escaping works character by character, in order. */
  lemma {:induction false} EscapeAppend(a: string, b: string)
    ensures Escape(a + b) == Escape(a) + Escape(b)
  {
    if a != [] {
      assert (a + b)[1..] == a[1..] + b;
      EscapeAppend(a[1..], b);
    } else {
      assert a + b == b;
    }
  }

  /** Removing the backslash before each special character gives the input
      back. */
  lemma {:induction false} UnescapeEscape(s: string)
    ensures Unescape(Escape(s)) == Some(s)
  {
    if s != [] {
      var t := Escape(s);
      UnescapeEscape(s[1..]);
      if IsSpecial(s[0]) {
        assert t[2..] == Escape(s[1..]);
      } else {
        assert t[1..] == Escape(s[1..]);
      }
      assert s == [s[0]] + s[1..];
    }
  }

  /** There is only one escaped form of a string: whatever unescapes to `s`
      is `Escape(s)`. */
  lemma {:induction false} EscapeUnescape(t: string, s: string)
    requires Unescape(t) == Some(s)
    ensures Escape(s) == t
    decreases |t|
  {
    if t != [] {
      if t[0] == '\\' {
        var rest := Unescape(t[2..]).value;
        EscapeUnescape(t[2..], rest);
        assert s == [t[1]] + rest;
        assert s[1..] == rest;
        assert t == ['\\', t[1]] + t[2..];
      } else {
        var rest := Unescape(t[1..]).value;
        EscapeUnescape(t[1..], rest);
        assert s == [t[0]] + rest;
        assert s[1..] == rest;
        assert t == [t[0]] + t[1..];
      }
    }
  }

  /** The source text of `corsRegex`: `^` and the escaped API base. */
  function CorsPattern(apiBaseEnv: Option<string>): (p: string)
    ensures |p| >= 1 && p[0] == '^'
    ensures Unescape(p[1..]) == Some(Config.ApiBase(apiBaseEnv))
  {
    var base := Config.ApiBase(apiBaseEnv);
    UnescapeEscape(base);
    var p := "^" + Escape(base);
    assert p[1..] == Escape(base);
    p
  }

  /** What initOtel registers when it does not return early. */
  datatype TracingSetup = TracingSetup(serviceName: string, exporterUrl: string, corsPattern: string)

  /** initOtel: an unset or empty exporter URL (`!exporterUrl`) returns at
      once, with nothing registered. */
  function InitOtel(exporterUrlEnv: Option<string>, apiBaseEnv: Option<string>): (r: Option<TracingSetup>)
    ensures r.None? <==> exporterUrlEnv.None? || exporterUrlEnv.value == ""
    ensures r.Some? ==> r.value.exporterUrl == exporterUrlEnv.value
                        && r.value.serviceName == ServiceName
                        && r.value.corsPattern == CorsPattern(apiBaseEnv)
  {
    match exporterUrlEnv
    case None => None
    case Some(url) =>
      if url == "" then None
      else Some(TracingSetup(ServiceName, url, CorsPattern(apiBaseEnv)))
  }

  /** A string without special characters is its own escape. */
  lemma {:induction false} EscapeOfPlain(s: string)
    requires forall i :: 0 <= i < |s| ==> !IsSpecial(s[i])
    ensures Escape(s) == s
  {
    if s != [] {
      EscapeOfPlain(s[1..]);
      assert s == [s[0]] + s[1..];
    }
  }
}
