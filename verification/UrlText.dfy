/** The parts of Go's `net/url` the adapter leans on: path-segment escaping, and the path component of a URL.
    Text is a sequence of bytes, one character each. */
module UrlText {
  import opened Text

  // ----- Percent-encoding (section 2.1 of RFC 3986) -----

  predicate IsByte(c: char) {
    c as int < 256
  }

  predicate IsLetter(c: char) {
    'a' <= c <= 'z' || 'A' <= c <= 'Z'
  }

  /** What `url.PathEscape` leaves as it is. */
  predicate Unescaped(c: char) {
    IsLetter(c) || IsDigit(c) || c in "-_.~$&+=:@"
  }

  function HexDigit(n: nat): (c: char)
    requires n < 16
    ensures Unescaped(c) && HexValue(c) == Some(n)
  {
    "0123456789ABCDEF"[n]
  }

  function HexValue(c: char): (v: Option<nat>)
    ensures v.Some? ==> v.value < 16
  {
    if IsDigit(c) then Some(DigitValue(c))
    else if 'A' <= c <= 'F' then Some(c as int - 'A' as int + 10)
    else if 'a' <= c <= 'f' then Some(c as int - 'a' as int + 10)
    else None
  }

  function EscapeByte(c: char): (s: string)
    requires IsByte(c)
    ensures s != "" && forall d :: d in s ==> Unescaped(d) || d == '%'
  {
    if Unescaped(c) then [c] else ['%', HexDigit(c as int / 16), HexDigit(c as int % 16)]
  }

  /** `url.PathEscape`. */
  function PathEscape(s: string): (e: string)
    requires forall c :: c in s ==> IsByte(c)
    ensures forall d :: d in e ==> Unescaped(d) || d == '%'
  {
    if s == "" then "" else EscapeByte(s[0]) + PathEscape(s[1..])
  }

  /** `url.PathUnescape`: None stands for an invalid escape. */
  function PathUnescape(s: string): Option<string> {
    if s == "" then Some("")
    else if s[0] == '%' then
      if |s| < 3 || HexValue(s[1]).None? || HexValue(s[2]).None? then None
      else
        var rest := PathUnescape(s[3..]);
        if rest.None? then None
        else Some([(HexValue(s[1]).value * 16 + HexValue(s[2]).value) as char] + rest.value)
    else
      var rest := PathUnescape(s[1..]);
      if rest.None? then None else Some([s[0]] + rest.value)
  }

  /** Unescaping undoes escaping. */
  lemma {:induction false} UnescapeEscape(s: string)
    requires forall c :: c in s ==> IsByte(c)
    ensures PathUnescape(PathEscape(s)) == Some(s)
  {
    if s != "" {
      UnescapeEscape(s[1..]);
      var head, tail := EscapeByte(s[0]), PathEscape(s[1..]);
      var e := head + tail;
      assert e[|head|..] == tail;
      assert e[0] == head[0];
      if !Unescaped(s[0]) {
        assert e[1] == head[1] && e[2] == head[2];
        assert s[0] as int / 16 * 16 + s[0] as int % 16 == s[0] as int;
      }
      assert s == [s[0]] + s[1..];
    }
  }

  lemma {:induction false} PathEscapeInjective(s: string, t: string)
    requires forall c :: c in s ==> IsByte(c)
    requires forall c :: c in t ==> IsByte(c)
    requires PathEscape(s) == PathEscape(t)
    ensures s == t
  {
    UnescapeEscape(s);
    UnescapeEscape(t);
  }

  lemma {:induction false} UnescapePlain(s: string)
    requires '%' !in s
    ensures PathUnescape(s) == Some(s)
  {
    if s != "" {
      UnescapePlain(s[1..]);
      assert s == [s[0]] + s[1..];
    }
  }

  // ----- The path of a URL -----

  predicate IsControl(c: char) {
    c as int < 0x20 || c as int == 0x7F
  }

  /** The text before the first `c`. */
  function Before(s: string, c: char): string {
    var i := IndexChar(s, c);
    if i == -1 then s else s[..i]
  }

  /** `getScheme`: the scheme and what follows its colon; no scheme leaves the text whole; a leading colon is an
      error. */
  datatype SchemeResult = Scheme(name: string, rest: string) | NoScheme | BadScheme

  function GetScheme(s: string, i: nat): SchemeResult
    requires i <= |s|
    decreases |s| - i
  {
    if i == |s| then NoScheme
    else if IsLetter(s[i]) then GetScheme(s, i + 1)
    else if IsDigit(s[i]) || s[i] in "+-." then if i == 0 then NoScheme else GetScheme(s, i + 1)
    else if s[i] == ':' then if i == 0 then BadScheme else Scheme(s[..i], s[i + 1..])
    else NoScheme
  }

  /** The `Path` field of `url.Parse(raw)`, None on a parse error. `acceptsHost` is the check of the authority part. */
  function UrlPath(raw: string, acceptsHost: string -> bool): Option<string> {
    if exists i :: 0 <= i < |raw| && IsControl(raw[i]) then None
    else
      var whole := Before(raw, '#');
      match GetScheme(whole, 0)
      case BadScheme => None
      case NoScheme => PathAfterScheme(false, Before(whole, '?'), acceptsHost)
      case Scheme(_, rest) => PathAfterScheme(true, Before(rest, '?'), acceptsHost)
  }

  function PathAfterScheme(hasScheme: bool, rest: string, acceptsHost: string -> bool): Option<string> {
    if !HasPrefix(rest, "/") && hasScheme then Some("")  // opaque
    else if !HasPrefix(rest, "/") && ':' in Before(rest, '/') then None
    else if HasPrefix(rest, "//") && (hasScheme || !HasPrefix(rest, "///")) then
      var authority := rest[2..];
      var host := Before(authority, '/');
      if !acceptsHost(host) then None else PathUnescape(authority[|host|..])
    else PathUnescape(rest)
  }

  /** Text that none of the URL delimiters, escapes or control characters occurs in. */
  predicate Plain(s: string) {
    forall i :: 0 <= i < |s| ==> s[i] != '#' && s[i] != '?' && s[i] != '%' && !IsControl(s[i])
  }

  /** An absolute URL without query, fragment or escapes. */
  datatype AbsoluteUrl = AbsoluteUrl(scheme: string, host: string, path: string)
  {
    function Text(): string {
      scheme + "://" + host + path
    }

    predicate Valid(acceptsHost: string -> bool) {
      && scheme != "" && IsLetter(scheme[0])
      && (forall i :: 0 <= i < |scheme| ==> IsLetter(scheme[i]) || IsDigit(scheme[i]) || scheme[i] in "+-.")
      && Plain(host) && '/' !in host && acceptsHost(host)
      && Plain(path) && (path != "" ==> path[0] == '/')
    }
  }

  lemma {:induction false} GetSchemeOf(s: string, i: nat, n: nat)
    requires i <= n < |s| && s[n] == ':' && n > 0
    requires IsLetter(s[0]) && forall k :: 0 <= k < n ==> IsLetter(s[k]) || IsDigit(s[k]) || s[k] in "+-."
    ensures GetScheme(s, i) == Scheme(s[..n], s[n + 1..])
    decreases n - i
  {
    if i < n {
      GetSchemeOf(s, i + 1, n);
    }
  }

  lemma {:induction false} BeforeAbsent(s: string, c: char)
    requires c !in s
    ensures Before(s, c) == s
  {
    assert forall i :: 0 <= i < |s| ==> s[i] != c;
  }

  lemma {:induction false} PlainHasNoDelimiters(s: string)
    requires Plain(s)
    ensures '#' !in s && '?' !in s && '%' !in s && !exists i :: 0 <= i < |s| && IsControl(s[i])
  {}

  /** The path of an absolute URL is what was written after its host. */
  lemma {:induction false} AbsolutePath(u: AbsoluteUrl, acceptsHost: string -> bool)
    requires u.Valid(acceptsHost)
    ensures UrlPath(u.Text(), acceptsHost) == Some(u.path)
  {
    AbsolutePathWithTail(u, "", acceptsHost);
    assert u.Text() + "" == u.Text();
  }

  lemma {:induction false} AuthorityPath(host: string, path: string, acceptsHost: string -> bool)
    requires '/' !in host && acceptsHost(host) && Plain(path) && (path != "" ==> path[0] == '/')
    ensures PathAfterScheme(true, "//" + host + path, acceptsHost) == Some(path)
  {
    var rest := "//" + host + path;
    var authority := rest[2..];
    assert authority == host + path;
    assert rest[..1] == "/" && rest[..2] == "//";
    if path == "" {
      assert authority == host;
      BeforeAbsent(host, '/');
    } else {
      assert forall k :: 0 <= k < |host| ==> authority[k] == host[k];
      FirstAt(authority, '/', |host|);
    }
    assert authority[..|host|] == host && authority[|host|..] == path;
    PlainHasNoDelimiters(path);
    UnescapePlain(path);
  }

  // ----- Other forms of URLs -----

  lemma {:induction false} BeforeConcat(a: string, t: string, c: char)
    requires c !in a
    ensures Before(a + t, c) == a + Before(t, c)
  {
    var i := IndexChar(t, c);
    var s := a + t;
    assert forall k :: 0 <= k < |a| ==> s[k] == a[k] && a[k] in a;
    assert forall k :: 0 <= k < |t| ==> s[|a| + k] == t[k];
    if i == -1 {
      assert forall k :: 0 <= k < |s| ==> s[k] != c;
    } else {
      FirstAt(s, c, |a| + i);
      assert s[..|a| + i] == a + t[..i];
    }
  }

  /** A query, a fragment, both or neither. */
  predicate IsTail(t: string) {
    (t != "" ==> t[0] == '?' || t[0] == '#') && forall i :: 0 <= i < |t| ==> !IsControl(t[i])
  }

  /** A tail is cut off before the path is read. */
  lemma {:induction false} TailCut(a: string, t: string)
    requires Plain(a) && IsTail(t)
    ensures Before(a + t, '#') == a + Before(t, '#') && Before(a + Before(t, '#'), '?') == a
  {
    PlainHasNoDelimiters(a);
    BeforeConcat(a, t, '#');
    BeforeConcat(a, Before(t, '#'), '?');
    if t != "" && t[0] == '#' {
      FirstAt(t, '#', 0);
      BeforeAbsent("", '?');
    } else if t != "" {
      assert Before(t, '#')[0] == '?';
      FirstAt(Before(t, '#'), '?', 0);
    }
    assert a + "" == a;
  }

  lemma {:induction false} NoControls(a: string, t: string)
    requires Plain(a) && IsTail(t)
    ensures !exists i :: 0 <= i < |a + t| && IsControl((a + t)[i])
  {}

  lemma {:induction false} SchemeCut(scheme: string, rest: string)
    requires scheme != "" && IsLetter(scheme[0])
    requires forall k :: 0 <= k < |scheme| ==> IsLetter(scheme[k]) || IsDigit(scheme[k]) || scheme[k] in "+-."
    ensures GetScheme(scheme + ":" + rest, 0) == Scheme(scheme, rest)
  {
    var whole, n := scheme + ":" + rest, |scheme|;
    assert forall k :: 0 <= k < n ==> whole[k] == scheme[k];
    GetSchemeOf(whole, 0, n);
    assert whole[n + 1..] == rest && whole[..n] == scheme;
  }

  lemma {:induction false} SchemeRegrouped(a: string, b: string, c: string, d: string, e: string)
    ensures a + "://" + b + c == a + ":" + ("//" + b + c)
    ensures (a + ":" + d) + e == a + ":" + (d + e)
  {}

  lemma {:induction false} PlainText(u: AbsoluteUrl, acceptsHost: string -> bool)
    requires u.Valid(acceptsHost)
    ensures Plain(u.Text()) && Plain("//" + u.host + u.path)
  {}

  /** A query and a fragment do not change the path of an absolute URL. */
  lemma {:induction false} AbsolutePathWithTail(u: AbsoluteUrl, t: string, acceptsHost: string -> bool)
    requires u.Valid(acceptsHost) && IsTail(t)
    ensures UrlPath(u.Text() + t, acceptsHost) == Some(u.path)
  {
    var rest, tail := "//" + u.host + u.path, Before(t, '#');
    PlainText(u, acceptsHost);
    NoControls(u.Text(), t);
    TailCut(u.Text(), t);
    TailCut(rest, t);
    SchemeRegrouped(u.scheme, u.host, u.path, rest, tail);
    SchemeCut(u.scheme, rest + tail);
    AuthorityPath(u.host, u.path, acceptsHost);
  }

  lemma {:induction false} SlashEndsScheme(s: string)
    requires s != "" && s[0] == '/'
    ensures GetScheme(s, 0) == NoScheme
  {}

  /** A rooted path is its own path, whatever query and fragment follow it. */
  lemma {:induction false} RootedPath(path: string, t: string, acceptsHost: string -> bool)
    requires Plain(path) && IsTail(t) && HasPrefix(path, "/") && !HasPrefix(path, "//")
    ensures UrlPath(path + t, acceptsHost) == Some(path)
  {
    NoControls(path, t);
    TailCut(path, t);
    SlashEndsScheme(path + Before(t, '#'));
    PlainHasNoDelimiters(path);
    UnescapePlain(path);
  }

  /** What follows a scheme without a slash is no path, and a text with a control character is no URL. */
  lemma {:induction false} NoPath(scheme: string, rest: string, raw: string, i: nat, acceptsHost: string -> bool)
    requires scheme != "" && IsLetter(scheme[0])
    requires forall k :: 0 <= k < |scheme| ==> IsLetter(scheme[k]) || IsDigit(scheme[k]) || scheme[k] in "+-."
    requires Plain(rest) && (rest == "" || rest[0] != '/')
    requires i < |raw| && (raw[i] < ' ' || raw[i] as int == 0x7F)
    ensures UrlPath(scheme + ":" + rest, acceptsHost) == Some("")
    ensures UrlPath(raw, acceptsHost) == None
  {
    var whole := scheme + ":" + rest;
    assert Plain(whole);
    PlainHasNoDelimiters(whole);
    PlainHasNoDelimiters(rest);
    BeforeAbsent(whole, '#');
    BeforeAbsent(rest, '?');
    SchemeCut(scheme, rest);
    assert IsControl(raw[i]);
  }
}
