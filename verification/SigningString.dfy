/** The strings that are signed, and the time window of a signature.
    signer.go: hash, SignAck. signvalidator.go: hash, hashAck, checkTimestampWindow. */
module SigningString {
  import opened Text

  const CREATED := "(created): "
  const EXPIRES := "\n(expires): "
  const DIGEST := "\ndigest: BLAKE-512="
  const REQUEST := "\nrequest-signature: "

  /** The signer's string: three lines, and a fourth when a request signature is bound in. `digest` is the base64 digest
      of the body. */
  function SignerString(digest: string, created: int, expires: int, requestSignature: string): string {
    var s := CREATED + FormatInt(created) + EXPIRES + FormatInt(expires) + DIGEST + digest;
    if requestSignature != "" then s + REQUEST + requestSignature else s
  }

  /** The validator's three-line string. */
  function ValidatorHash(digest: string, created: int, expires: int): string {
    CREATED + FormatInt(created) + EXPIRES + FormatInt(expires) + DIGEST + digest
  }

  /** The validator's string with a request signature. */
  function ValidatorHashAck(digest: string, created: int, expires: int, requestSignature: string): string {
    if requestSignature == "" then ValidatorHash(digest, created, expires)
    else ValidatorHash(digest, created, expires) + REQUEST + requestSignature
  }

  /** A line ends where the text does or at a newline: it can be read off the front in only one way. */
  lemma {:induction false} CutLine(a: string, t: string, b: string, u: string)
    requires '\n' !in a && '\n' !in b && (t == "" || t[0] == '\n') && (u == "" || u[0] == '\n')
    requires a + t == b + u
    ensures a == b && t == u
  {
    var s := a + t;
    assert forall i :: 0 <= i < |a| ==> s[i] == a[i];
    assert forall i :: 0 <= i < |b| ==> s[i] == b[i];
    assert |a| < |s| ==> s[|a|] == t[0];
    assert |b| < |s| ==> s[|b|] == u[0];
    assert |a| == |b|;
    assert a == s[..|a|] && b == s[..|b|];
    assert t == s[|a|..] && u == s[|b|..];
  }

  lemma {:induction false} SamePrefix(p: string, s: string, t: string)
    requires p + s == p + t
    ensures s == t
  {
    assert (p + s)[|p|..] == s && (p + t)[|p|..] == t;
  }

  /** A label that starts a line of its own. */
  predicate StartsLine(p: string) {
    p != "" && p[0] == '\n' && '\n' !in p[1..]
  }

  /** A labelled line after the first can be read off the front in only one way. */
  lemma {:induction false} CutLabelled(p: string, x: string, t: string, y: string, u: string)
    requires StartsLine(p) && '\n' !in x && '\n' !in y && (t == "" || t[0] == '\n') && (u == "" || u[0] == '\n')
    requires p + x + t == p + y + u
    ensures x == y && t == u
  {
    var q := p[1..];
    assert p + x + t == [p[0]] + ((q + x) + t);
    assert p + y + u == [p[0]] + ((q + y) + u);
    SamePrefix([p[0]], (q + x) + t, (q + y) + u);
    CutLine(q + x, t, q + y, u);
    SamePrefix(q, x, y);
  }

  function FourthLine(p: string, requestSignature: string): string {
    if requestSignature != "" then p + requestSignature else ""
  }

  function Lines(p1: string, x: string, p2: string, y: string, p3: string, d: string, f: string): string {
    p1 + x + (p2 + y + (p3 + d + f))
  }

  lemma {:induction false} LinesDetermine(p1: string, p2: string, p3: string,
      x: string, y: string, d: string, f: string, x': string, y': string, d': string, f': string)
    requires '\n' !in p1 && StartsLine(p2) && StartsLine(p3)
    requires '\n' !in x && '\n' !in x' && '\n' !in y && '\n' !in y' && '\n' !in d && '\n' !in d'
    requires (f == "" || f[0] == '\n') && (f' == "" || f'[0] == '\n')
    requires Lines(p1, x, p2, y, p3, d, f) == Lines(p1, x', p2, y', p3, d', f')
    ensures x == x' && y == y' && d == d' && f == f'
  {
    CutLine(p1 + x, p2 + y + (p3 + d + f), p1 + x', p2 + y' + (p3 + d' + f'));
    SamePrefix(p1, x, x');
    CutLabelled(p2, y, p3 + d + f, y', p3 + d' + f');
    CutLabelled(p3, d, f, d', f');
  }

  lemma {:induction false} Regroup(p1: string, x: string, p2: string, y: string, p3: string, d: string, f: string)
    ensures p1 + x + p2 + y + p3 + d + f == Lines(p1, x, p2, y, p3, d, f)
  {}

  lemma {:induction false} CreatedLabel()
    ensures '\n' !in CREATED
  {}

  lemma {:induction false} ExpiresLabel()
    ensures EXPIRES == ['\n'] + "(expires): " && '\n' !in "(expires): "
  {}

  lemma {:induction false} DigestLabel()
    ensures DIGEST == ['\n'] + "digest: BLAKE-512=" && '\n' !in "digest: BLAKE-512="
  {}

  lemma {:induction false} RequestLabel()
    ensures REQUEST == ['\n'] + "request-signature: " && '\n' !in "request-signature: "
  {}

  lemma {:induction false} NewlineStartsLine(p: string, q: string)
    requires p == ['\n'] + q && '\n' !in q
    ensures StartsLine(p)
  {
    assert p[1..] == q;
  }

  lemma {:induction false} LabelsStartLines()
    ensures '\n' !in CREATED && StartsLine(EXPIRES) && StartsLine(DIGEST) && StartsLine(REQUEST)
  {
    CreatedLabel();
    ExpiresLabel();
    DigestLabel();
    RequestLabel();
    NewlineStartsLine(EXPIRES, "(expires): ");
    NewlineStartsLine(DIGEST, "digest: BLAKE-512=");
    NewlineStartsLine(REQUEST, "request-signature: ");
  }

  lemma {:induction false} StringInLines(digest: string, created: int, expires: int, r: string)
    ensures SignerString(digest, created, expires, r) ==
      Lines(CREATED, FormatInt(created), EXPIRES, FormatInt(expires), DIGEST, digest, FourthLine(REQUEST, r))
  {
    Regroup(CREATED, FormatInt(created), EXPIRES, FormatInt(expires), DIGEST, digest, FourthLine(REQUEST, r));
    if r != "" {
      Regrouped(CREATED + FormatInt(created) + EXPIRES + FormatInt(expires) + DIGEST + digest, REQUEST, r);
    }
  }

  /** Both sides build the same string. */
  lemma {:induction false} BothSidesAgree(digest: string, created: int, expires: int, r: string)
    ensures SignerString(digest, created, expires, r) == ValidatorHashAck(digest, created, expires, r)
    ensures SignerString(digest, created, expires, "") == ValidatorHash(digest, created, expires)
  {}

  /** The signed string determines everything that went into it; in particular a three-line string is never a four-line
      one. The digest is base64, so it holds no newline. */
  lemma {:induction false} StringDetermines(d: string, c: int, e: int, r: string, d': string, c': int, e': int,
                                            r': string)
    requires IsInt64(c) && IsInt64(e) && IsInt64(c') && IsInt64(e') && '\n' !in d && '\n' !in d'
    requires SignerString(d, c, e, r) == ValidatorHashAck(d', c', e', r')
    ensures d == d' && c == c' && e == e' && r == r'
  {
    BothSidesAgree(d', c', e', r');
    StringInLines(d, c, e, r);
    StringInLines(d', c', e', r');
    LabelsStartLines();
    var f, f' := FourthLine(REQUEST, r), FourthLine(REQUEST, r');
    LinesDetermine(CREATED, EXPIRES, DIGEST, FormatInt(c), FormatInt(e), d, f, FormatInt(c'), FormatInt(e'), d', f');
    FormatIntInjective(c, c');
    FormatIntInjective(e, e');
    FourthLineDetermines(REQUEST, r, r');
  }

  lemma {:induction false} FourthLineDetermines(p: string, r: string, r': string)
    requires p != "" && FourthLine(p, r) == FourthLine(p, r')
    ensures r == r'
  {
    if r != "" && r' != "" {
      SamePrefix(p, r, r');
    }
  }

  // ----- The time window -----

  const NANOS := 1_000_000_000

  /** Seconds from the year 1 to 1970: what `time.Unix` adds, in 64-bit arithmetic. */
  const UNIX_TO_INTERNAL := 62_135_596_800

  function InternalSeconds(unix: int): int {
    Wrap64(unix + UNIX_TO_INTERNAL)
  }

  /** `checkTimestampWindow` at clock reading `now`, in nanoseconds: `created` against now plus the tolerance,
      `expires` against the whole seconds of now. */
  predicate InWindow(created: int, expires: int, now: int, tolerance: int) {
    InternalSeconds(created) <= InternalSeconds((now + tolerance) / NANOS) && now / NANOS <= expires
  }

  /** The last creation time whose conversion does not overflow. */
  const LAST_CREATED: int := MAX_INT64 - UNIX_TO_INTERNAL

  /** The window accepts exactly the signatures created by now plus the tolerance, to the nanosecond, and not yet
      expired, except that a creation time past the last convertible one is read as a time long gone. */
  lemma {:induction false} WindowIff(created: int, expires: int, now: int, tolerance: int)
    requires IsInt64(created) && MIN_INT64 <= (now + tolerance) / NANOS <= LAST_CREATED
    ensures InWindow(created, expires, now, tolerance) <==>
      (created * NANOS <= now + tolerance || created > LAST_CREATED) && now / NANOS <= expires
  {
    var deadline := now + tolerance;
    assert deadline == deadline / NANOS * NANOS + deadline % NANOS;
    assert created <= deadline / NANOS <==> created * NANOS <= deadline;
    var sum := created + UNIX_TO_INTERNAL;
    if created > LAST_CREATED {
      assert (sum - MIN_INT64) % TWO_TO_64 == sum - MIN_INT64 - TWO_TO_64;
    }
  }

  /** It happens: a signature created at the largest 64-bit time is inside the window at time zero. */
  lemma {:induction false} FarFutureAccepted()
    ensures InWindow(MAX_INT64, 0, 0, 0) && MAX_INT64 * NANOS > 0
  {
    WindowIff(MAX_INT64, 0, 0, 0);
  }

  // ----- Line by line -----

  lemma {:induction false} NoNewlineInNumber(n: int)
    ensures '\n' !in FormatInt(n)
  {
    assert !IsDigit('\n');
  }

  lemma {:induction false} SplitLines(a: string, b: string)
    requires '\n' !in a
    ensures Split(a + (['\n'] + b), '\n') == [a] + Split(b, '\n')
  {
    SplitConcat(a, b, '\n');
    SplitWhole(a, '\n');
    assert a + (['\n'] + b) == a + ['\n'] + b;
  }

  /** Labels after the first begin with the newline that ends the line before. */
  lemma {:induction false} LinesSplit(p1: string, p2: string, p3: string, q2: string, q3: string, x: string, y: string,
                                      d: string)
    requires p2 == ['\n'] + q2 && p3 == ['\n'] + q3
    requires '\n' !in p1 + x && '\n' !in q2 + y && '\n' !in q3 + d
    ensures Split(Lines(p1, x, p2, y, p3, d, ""), '\n') == [p1 + x, q2 + y, q3 + d]
  {
    assert Lines(p1, x, p2, y, p3, d, "") == (p1 + x) + (['\n'] + ((q2 + y) + (['\n'] + (q3 + d))));
    SplitLines(p1 + x, (q2 + y) + (['\n'] + (q3 + d)));
    SplitLines(q2 + y, q3 + d);
    SplitWhole(q3 + d, '\n');
  }

  lemma {:induction false} FourSplit(p1: string, p2: string, p3: string, p4: string, q4: string, x: string, y: string,
                                     d: string, r: string)
    requires p4 == ['\n'] + q4 && '\n' !in q4 + r
    ensures Split(Lines(p1, x, p2, y, p3, d, p4 + r), '\n') ==
      Split(Lines(p1, x, p2, y, p3, d, ""), '\n') + [q4 + r]
  {
    var three := Lines(p1, x, p2, y, p3, d, "");
    assert Lines(p1, x, p2, y, p3, d, p4 + r) == three + ['\n'] + (q4 + r);
    SplitConcat(three, q4 + r, '\n');
    SplitWhole(q4 + r, '\n');
  }

  lemma {:induction false} NoNewline(a: string, b: string)
    requires '\n' !in a && '\n' !in b
    ensures '\n' !in a + b
  {}

  /** The signed text, line by line. */
  lemma {:induction false} SignedLines(digest: string, created: int, expires: int, r: string)
    requires '\n' !in digest && '\n' !in r
    ensures Split(SignerString(digest, created, expires, r), '\n') ==
      ["(created): " + FormatInt(created), "(expires): " + FormatInt(expires), "digest: BLAKE-512=" + digest] +
      if r == "" then [] else ["request-signature: " + r]
  {
    var x, y := FormatInt(created), FormatInt(expires);
    NoNewlineInNumber(created);
    NoNewlineInNumber(expires);
    CreatedLabel();
    ExpiresLabel();
    DigestLabel();
    RequestLabel();
    NoNewline(CREATED, x);
    NoNewline("(expires): ", y);
    NoNewline("digest: BLAKE-512=", digest);
    StringInLines(digest, created, expires, r);
    LinesSplit(CREATED, EXPIRES, DIGEST, "(expires): ", "digest: BLAKE-512=", x, y, digest);
    if r != "" {
      NoNewline("request-signature: ", r);
      FourSplit(CREATED, EXPIRES, DIGEST, REQUEST, "request-signature: ", x, y, digest, r);
    }
  }
}
