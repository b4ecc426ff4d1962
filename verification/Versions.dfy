/** Schema versions, the node manifest, and the check that decides what must be translated.
    manifest.go: compareVersion, latestVersion, CanonicalVersion, the schema part of NodeManifest.Validate.
    schemaversionmediator.go: extractVersionSegment, isVersionSegment, ToContextURL, deriveArtifactURL,
    CheckCompatibility. */
module Versions {
  import opened Text
  import opened UrlText
  import opened PayloadWalk

  // ----- Comparing versions -----

  datatype Version = Version(major: int, minor: int)

  /** major.minor after an optional "v" or "V". A part that is no number reads as 0, one out of range as the nearest
      bound. */
  function ParseVersion(s: string): (v: Version)
    ensures IsInt64(v.major) && IsInt64(v.minor)
  {
    ParseBody(if s != "" && (s[0] == 'v' || s[0] == 'V') then s[1..] else s)
  }

  function ParseBody(body: string): (v: Version)
    ensures IsInt64(v.major) && IsInt64(v.minor)
  {
    var dot := IndexChar(body, '.');
    if dot == -1 then Version(ParseInt(body).Lenient(), 0)
    else Version(ParseInt(body[..dot]).Lenient(), ParseInt(body[dot + 1..]).Lenient())
  }

  /** The difference of the first parts that differ, in 64-bit arithmetic. */
  function CompareVersion(a: string, b: string): int {
    Wrap64(Difference(ParseVersion(a), ParseVersion(b)))
  }

  function Difference(x: Version, y: Version): int {
    if x.major != y.major then x.major - y.major else x.minor - y.minor
  }

  /** `a` is strictly later than `b`, part by part. */
  predicate Newer(a: string, b: string) {
    Later(ParseVersion(a), ParseVersion(b))
  }

  predicate Later(x: Version, y: Version) {
    x.major > y.major || (x.major == y.major && x.minor > y.minor)
  }

  /** The difference that decides the comparison is a 64-bit number. */
  predicate DifferenceFits(a: string, b: string) {
    IsInt64(Difference(ParseVersion(a), ParseVersion(b)))
  }

  /** The sign of a comparison is the order of the versions exactly when the subtraction does not overflow. */
  lemma {:induction false} CompareAgreesIff(a: string, b: string)
    ensures (CompareVersion(a, b) > 0 <==> Newer(a, b)) && (CompareVersion(a, b) < 0 <==> Newer(b, a)) <==>
      DifferenceFits(a, b)
  {
    SignsAgreeIff(ParseVersion(a), ParseVersion(b));
  }

  lemma {:induction false} SignsAgreeIff(x: Version, y: Version)
    requires IsInt64(x.major) && IsInt64(x.minor) && IsInt64(y.major) && IsInt64(y.minor)
    ensures var d := Wrap64(Difference(x, y));
      (d > 0 <==> Later(x, y)) && (d < 0 <==> Later(y, x)) <==> IsInt64(Difference(x, y))
  {
    SignKeptIff(Difference(x, y));
  }

  /** Wrapping a difference of two 64-bit numbers keeps its sign exactly when it fits. */
  lemma {:induction false} SignKeptIff(d: int)
    requires -TWO_TO_64 < d < TWO_TO_64
    ensures (Wrap64(d) > 0 <==> d > 0) && (Wrap64(d) < 0 <==> d < 0) <==> IsInt64(d)
  {
    WrapSign(d);
  }

  /** An overflowing difference of two 64-bit numbers comes out with the opposite sign. */
  lemma {:induction false} WrapSign(d: int)
    requires -TWO_TO_64 < d < TWO_TO_64
    ensures !IsInt64(d) ==> (Wrap64(d) > 0 <==> d < 0) && Wrap64(d) != 0
  {
    var e := d - MIN_INT64;
    if d > MAX_INT64 {
      assert e % TWO_TO_64 == e - TWO_TO_64;
    } else if d < MIN_INT64 {
      assert e % TWO_TO_64 == e + TWO_TO_64;
    }
  }

  predicate NonNegative(a: string) {
    ParseVersion(a).major >= 0 && ParseVersion(a).minor >= 0
  }

  lemma {:induction false} NonNegativeFits(a: string, b: string)
    requires NonNegative(a) && NonNegative(b)
    ensures DifferenceFits(a, b)
  {}

  /** On versions without negative parts, comparing is a total preorder: any two are ordered, consistently
      whichever is asked first, and the order is transitive. */
  lemma {:induction false} CompareTotalPreorder(a: string, b: string, c: string)
    requires NonNegative(a) && NonNegative(b) && NonNegative(c)
    ensures CompareVersion(a, a) == 0
    ensures CompareVersion(a, b) >= 0 <==> CompareVersion(b, a) <= 0
    ensures CompareVersion(a, b) >= 0 && CompareVersion(b, c) >= 0 ==> CompareVersion(a, c) >= 0
    ensures CompareVersion(a, b) > 0 && CompareVersion(b, c) >= 0 ==> CompareVersion(a, c) > 0
  {
    CompareAgreesIff(a, a);
    CompareAgreesIff(a, b);
    CompareAgreesIff(b, a);
    CompareAgreesIff(b, c);
    CompareAgreesIff(a, c);
  }

  function FormatVersion(v: Version): string {
    "v" + FormatInt(v.major) + "." + FormatInt(v.minor)
  }

  /** A printed version parses as itself. */
  lemma {:induction false} ParsePrinted(v: Version)
    requires IsInt64(v.major) && IsInt64(v.minor)
    ensures ParseVersion(FormatVersion(v)) == v
  {
    var major, minor := FormatInt(v.major), FormatInt(v.minor);
    assert FormatVersion(v)[1..] == major + "." + minor;
    ParseFormat(v.major);
    ParseFormat(v.minor);
    PartsAroundDot(major, minor);
  }

  /** Every form a version is written in: with or without a "v" in either case, with or without a minor part. */
  lemma {:induction false} ParseForms(prefix: string, major: int, minor: int)
    requires prefix in ["", "v", "V"] && IsInt64(major) && IsInt64(minor)
    ensures ParseVersion(prefix + FormatInt(major)) == Version(major, 0)
    ensures ParseVersion(prefix + (FormatInt(major) + "." + FormatInt(minor))) == Version(major, minor)
  {
    ParseFormat(major);
    ParseFormat(minor);
    Unprefixed(prefix, FormatInt(major));
    Unprefixed(prefix, FormatInt(major) + "." + FormatInt(minor));
    PartsAroundDot(FormatInt(major), FormatInt(minor));
  }

  lemma {:induction false} Unprefixed(prefix: string, body: string)
    requires prefix in ["", "v", "V"] && body != "" && (body[0] == '-' || IsDigit(body[0]))
    ensures ParseVersion(prefix + body) == ParseBody(body)
  {
    if prefix == "" {
      assert prefix + body == body;
    } else {
      assert (prefix + body)[1..] == body;
    }
  }

  lemma {:induction false} PartsAroundDot(major: string, minor: string)
    requires '.' !in major
    ensures var body := major + "." + minor;
      IndexChar(body, '.') == |major| && body[..|major|] == major && body[|major| + 1..] == minor
  {
    var body := major + "." + minor;
    assert forall k :: 0 <= k < |major| ==> body[k] == major[k] && major[k] in major;
    FirstAt(body, '.', |major|);
  }

  /** A negative part can overflow the comparison: the later version then compares as the earlier one. */
  lemma {:induction false} CompareOverflows()
    ensures var a, b := FormatVersion(Version(MAX_INT64, 0)), FormatVersion(Version(-1, 0));
      Newer(a, b) && CompareVersion(a, b) < 0
  {
    ParsePrinted(Version(MAX_INT64, 0));
    ParsePrinted(Version(-1, 0));
    WrapSign(MAX_INT64 + 1);
  }

  /** The running best of `latestVersion` after the versions have been seen from the left. */
  function Latest(versions: seq<string>): string
    requires versions != []
  {
    if |versions| == 1 then versions[0]
    else
      var best, last := Latest(versions[..|versions| - 1]), versions[|versions| - 1];
      if CompareVersion(last, best) > 0 then last else best
  }

  method LatestVersion(versions: seq<string>) returns (best: Option<string>)
    ensures best.None? <==> versions == []
    ensures best.Some? ==> best.value == Latest(versions)
  {
    if versions == [] {
      return None;
    }
    var current := versions[0];
    for i := 1 to |versions|
      invariant current == Latest(versions[..i])
    {
      assert versions[..i + 1][..i] == versions[..i];
      if CompareVersion(versions[i], current) > 0 {
        current := versions[i];
      }
    }
    assert versions[..|versions|] == versions;
    best := Some(current);
  }

  lemma {:induction false} LatestIsListed(versions: seq<string>)
    requires versions != []
    ensures Latest(versions) in versions
  {
    if |versions| > 1 {
      LatestIsListed(versions[..|versions| - 1]);
    }
  }

  /** Of versions without negative parts, none is newer than the latest one. */
  lemma {:induction false} LatestIsMaximal(versions: seq<string>, v: string)
    requires v in versions && forall w :: w in versions ==> NonNegative(w)
    ensures !Newer(v, Latest(versions))
  {
    if |versions| > 1 {
      var front, last := versions[..|versions| - 1], versions[|versions| - 1];
      assert versions == front + [last];
      LatestIsListed(front);
      NonNegativeFits(last, Latest(front));
      CompareAgreesIff(last, Latest(front));
      if v in front {
        LatestIsMaximal(front, v);
      }
    }
  }

  // ----- The manifest -----

  datatype SchemaObject = SchemaObject(typ: string, baseURL: string, supportedVersions: seq<string>,
                                       versionPolicy: string, pinnedVersion: string)

  datatype NodeManifest = NodeManifest(defaultVersionPolicy: string, schemaObjects: seq<SchemaObject>)

  /** The policy in force for an object: its own, else the manifest's, else "latest". */
  function Policy(obj: SchemaObject, defaultPolicy: string): string {
    if obj.versionPolicy != "" then obj.versionPolicy else if defaultPolicy != "" then defaultPolicy else "latest"
  }

  /** `CanonicalVersion`: the version to translate to, None on its error. */
  function CanonicalVersion(obj: SchemaObject, defaultPolicy: string): Option<string> {
    if obj.supportedVersions == [] then None
    else
      var policy := Policy(obj, defaultPolicy);
      if policy == "latest" then Some(Latest(obj.supportedVersions))
      else if policy == "pinned" && obj.pinnedVersion != "" then Some(obj.pinnedVersion)
      else None
  }

  /** `SchemaObject.CanonicalVersion` as it runs. */
  method CanonicalOf(obj: SchemaObject, defaultPolicy: string) returns (version: Option<string>)
    ensures version == CanonicalVersion(obj, defaultPolicy)
  {
    if |obj.supportedVersions| == 0 {
      return None;
    }
    var policy := obj.versionPolicy;
    if policy == "" {
      policy := defaultPolicy;
    }
    if policy == "" {
      policy := "latest";
    }
    match policy
    case "latest" =>
      version := LatestVersion(obj.supportedVersions);
    case "pinned" =>
      version := if obj.pinnedVersion == "" then None else Some(obj.pinnedVersion);
    case _ =>
      version := None;
  }

  predicate KnownPolicy(policy: string) {
    policy == "" || policy == "latest" || policy == "pinned"
  }

  predicate ValidObject(obj: SchemaObject, defaultPolicy: string) {
    && TrimSpace(obj.typ) != "" && TrimSpace(obj.baseURL) != ""
    && obj.supportedVersions != [] && KnownPolicy(obj.versionPolicy)
    && (Policy(obj, defaultPolicy) == "pinned" ==>
        TrimSpace(obj.pinnedVersion) != "" && obj.pinnedVersion in obj.supportedVersions)
  }

  predicate ValidSchema(m: NodeManifest) {
    && KnownPolicy(m.defaultVersionPolicy) && m.schemaObjects != []
    && ObjectsValid(m.schemaObjects, m.defaultVersionPolicy)
  }

  /** The inner loop of `Validate`. */
  method IsListed(versions: seq<string>, version: string) returns (found: bool)
    ensures found <==> version in versions
  {
    found := false;
    for j := 0 to |versions|
      invariant found <==> version in versions[..j]
    {
      if versions[j] == version {
        found := true;
        break;
      }
    }
  }

  /** What `Validate` asks of one schema object. */
  method ValidateObject(obj: SchemaObject, defaultPolicy: string) returns (ok: bool)
    requires KnownPolicy(defaultPolicy)
    ensures ok <==> ValidObject(obj, defaultPolicy)
  {
    if TrimSpace(obj.typ) == "" || TrimSpace(obj.baseURL) == "" || |obj.supportedVersions| == 0 {
      return false;
    }
    if obj.versionPolicy != "" && obj.versionPolicy != "latest" && obj.versionPolicy != "pinned" {
      return false;
    }
    if obj.versionPolicy == "pinned" || (obj.versionPolicy == "" && defaultPolicy == "pinned") {
      if TrimSpace(obj.pinnedVersion) == "" {
        return false;
      }
      var found := IsListed(obj.supportedVersions, obj.pinnedVersion);
      return found;
    }
    return true;
  }

  /** The schema section of `NodeManifest.Validate`. */
  method ValidateSchema(m: NodeManifest) returns (ok: bool)
    ensures ok <==> ValidSchema(m)
  {
    if m.defaultVersionPolicy != "" && m.defaultVersionPolicy != "latest" && m.defaultVersionPolicy != "pinned" {
      return false;
    }
    assert KnownPolicy(m.defaultVersionPolicy);
    if |m.schemaObjects| == 0 {
      return false;
    }
    ok := ValidateObjects(m.schemaObjects, m.defaultVersionPolicy);
  }

  predicate ObjectsValid(objects: seq<SchemaObject>, defaultPolicy: string) {
    forall i :: 0 <= i < |objects| ==> ValidObject(objects[i], defaultPolicy)
  }

  lemma {:induction false} OneMoreValid(objects: seq<SchemaObject>, defaultPolicy: string, n: nat)
    requires n < |objects| && ObjectsValid(objects[..n], defaultPolicy)
    ensures ObjectsValid(objects[..n + 1], defaultPolicy) <==> ValidObject(objects[n], defaultPolicy)
    ensures ObjectsValid(objects, defaultPolicy) ==> ValidObject(objects[n], defaultPolicy)
  {
    var front := objects[..n + 1];
    assert front[n] == objects[n] && forall i :: 0 <= i < n ==> front[i] == objects[..n][i];
  }

  /** The outer loop of `Validate`. */
  method ValidateObjects(objects: seq<SchemaObject>, defaultPolicy: string) returns (ok: bool)
    requires KnownPolicy(defaultPolicy)
    ensures ok <==> ObjectsValid(objects, defaultPolicy)
  {
    for i := 0 to |objects|
      invariant ObjectsValid(objects[..i], defaultPolicy)
    {
      OneMoreValid(objects, defaultPolicy, i);
      ok := ValidateObject(objects[i], defaultPolicy);
      if !ok {
        return false;
      }
    }
    assert objects[..|objects|] == objects;
    ok := true;
  }

  /** Every object of a validated manifest has a canonical version, and supports it. */
  lemma {:induction false} CanonicalIsSupported(m: NodeManifest, obj: SchemaObject)
    requires ValidSchema(m) && obj in m.schemaObjects
    ensures CanonicalVersion(obj, m.defaultVersionPolicy).Some?
    ensures CanonicalVersion(obj, m.defaultVersionPolicy).value in obj.supportedVersions
  {
    LatestIsListed(obj.supportedVersions);
    assert obj.pinnedVersion == "" ==> TrimSpace(obj.pinnedVersion) == "";
  }

  // ----- Versions inside context URLs -----

  /** `isVersionSegment`: digits and at least one dot, not at either end, after an optional "v" or "V". */
  predicate IsVersionSegment(s: string) {
    IsDottedNumber(if s != "" && (s[0] == 'v' || s[0] == 'V') then s[1..] else s)
  }

  predicate IsDottedNumber(s: string) {
    && s != "" && s[0] != '.' && s[|s| - 1] != '.' && '.' in s
    && forall i :: 0 <= i < |s| ==> s[i] == '.' || IsDigit(s[i])
  }

  function FirstVersion(segments: seq<string>): Option<string> {
    if segments == [] then None
    else if IsVersionSegment(segments[0]) then Some(segments[0])
    else FirstVersion(segments[1..])
  }

  /** `extractVersionSegment`: the first version-shaped segment of the URL's path. */
  function ExtractVersion(contextURL: string, acceptsHost: string -> bool): Option<string> {
    var path := UrlPath(contextURL, acceptsHost);
    if path.None? then None else FirstVersion(Split(TrimChar(path.value, '/'), '/'))
  }

  /** The scan of `isVersionSegment`. */
  method VersionSegment(s: string) returns (ok: bool)
    ensures ok <==> IsVersionSegment(s)
  {
    if |s| == 0 {
      return false;
    }
    var check := s;
    if check[0] == 'v' || check[0] == 'V' {
      check := check[1..];
    }
    if |check| == 0 || check[0] == '.' || check[|check| - 1] == '.' {
      return false;
    }
    var hasDot := false;
    for i := 0 to |check|
      invariant hasDot <==> '.' in check[..i]
      invariant forall k :: 0 <= k < i ==> check[k] == '.' || IsDigit(check[k])
    {
      if check[i] == '.' {
        hasDot := true;
      } else if check[i] < '0' || check[i] > '9' {
        return false;
      }
    }
    assert check[..|check|] == check;
    return hasDot;
  }

  /** Two numbers around a dot are a version segment, with or without a "v" in either case; one number is not, and
      neither is one with a dot before or after it. */
  lemma {:induction false} PrintedSegments(prefix: string, major: nat, minor: nat)
    requires prefix in ["", "v", "V"]
    ensures IsVersionSegment(prefix + (FormatNat(major) + "." + FormatNat(minor)))
    ensures !IsVersionSegment(prefix + FormatNat(major))
    ensures !IsVersionSegment(prefix + ("." + FormatNat(minor))) && !IsVersionSegment(prefix + (FormatNat(major) + "."))
  {
    var a, b := FormatNat(major), FormatNat(minor);
    var both := a + "." + b;
    assert both[0] == a[0] && both[|a|] == '.' && both[|both| - 1] == b[|b| - 1];
    assert forall c :: c in both ==> c in a || c == '.' || c in b;
    SegmentBody(prefix, both);
    SegmentBody(prefix, a);
    SegmentBody(prefix, "." + b);
    SegmentBody(prefix, a + ".");
  }

  lemma {:induction false} SegmentBody(prefix: string, body: string)
    requires prefix in ["", "v", "V"] && body != "" && (body[0] == '.' || IsDigit(body[0]))
    ensures IsVersionSegment(prefix + body) <==> IsDottedNumber(body)
  {
    if prefix == "" {
      assert prefix + body == body;
    } else {
      assert (prefix + body)[1..] == body;
    }
  }

  /** The version of a path is its first version-shaped segment. */
  lemma {:induction false} FirstVersionIff(segments: seq<string>, v: string)
    ensures FirstVersion(segments) == Some(v) <==> exists i :: FirstSegment(segments, v, i)
  {
    if segments != [] {
      FirstVersionIff(segments[1..], v);
      if i :| FirstSegment(segments, v, i) && i > 0 {
        assert FirstSegment(segments[1..], v, i - 1);
      }
      if i :| FirstSegment(segments[1..], v, i) && !IsVersionSegment(segments[0]) {
        assert FirstSegment(segments, v, i + 1);
      }
      assert IsVersionSegment(segments[0]) ==> FirstSegment(segments, segments[0], 0);
    }
  }

  predicate FirstSegment(segments: seq<string>, v: string, i: int) {
    && 0 <= i < |segments| && segments[i] == v && IsVersionSegment(v)
    && forall k :: 0 <= k < i ==> !IsVersionSegment(segments[k])
  }

  /** The loop of `extractVersionSegment`. */
  method ExtractVersionSegment(contextURL: string, acceptsHost: string -> bool) returns (version: Option<string>)
    ensures version == ExtractVersion(contextURL, acceptsHost)
  {
    var path := UrlPath(contextURL, acceptsHost);
    if path.None? {
      return None;
    }
    var segments := Split(TrimChar(path.value, '/'), '/');
    for i := 0 to |segments|
      invariant FirstVersion(segments) == FirstVersion(segments[i..])
    {
      var found := VersionSegment(segments[i]);
      if found {
        return Some(segments[i]);
      }
    }
    return None;
  }

  lemma {:induction false} FirstVersionConcat(a: seq<string>, b: seq<string>)
    ensures FirstVersion(a + b) == if FirstVersion(a).Some? then FirstVersion(a) else FirstVersion(b)
  {
    if a == [] {
      assert a + b == b;
    } else {
      assert (a + b)[1..] == a[1..] + b;
      FirstVersionConcat(a[1..], b);
    }
  }

  /** Trimming slashes only removes empty segments, so it does not change the first version. */
  lemma {:induction false} TrimKeepsFirstVersion(path: string)
    ensures FirstVersion(Split(TrimChar(path, '/'), '/')) == FirstVersion(Split(path, '/'))
    decreases |path|
  {
    if path != "" && path[0] == '/' {
      assert path == "" + ['/'] + path[1..];
      SplitConcat("", path[1..], '/');
      FirstVersionConcat(Split("", '/'), Split(path[1..], '/'));
      TrimKeepsFirstVersion(path[1..]);
    } else if path != "" && path[|path| - 1] == '/' {
      var front := path[..|path| - 1];
      assert path == front + ['/'] + "";
      SplitConcat(front, "", '/');
      FirstVersionConcat(Split(front, '/'), Split("", '/'));
      TrimKeepsFirstVersion(front);
    }
  }

  const CONTEXT_FILE := "context.jsonld"

  /** A base URL that no version can be read from. */
  predicate UnversionedBase(base: AbsoluteUrl, acceptsHost: string -> bool) {
    base.Valid(acceptsHost) && FirstVersion(Split(base.path, '/')).None?
  }

  /** A file below a base URL has its version in what follows the base. */
  lemma {:induction false} VersionBelow(base: AbsoluteUrl, tail: string, acceptsHost: string -> bool)
    requires UnversionedBase(base, acceptsHost) && Plain(tail)
    ensures ExtractVersion(base.Text() + "/" + tail, acceptsHost) == FirstVersion(Split(tail, '/'))
  {
    var path := base.path + "/" + tail;
    var full := base.(path := path);
    assert full.Text() == base.Text() + "/" + tail;
    assert path[0] == '/' && Plain(path);
    AbsolutePath(full, acceptsHost);
    TrimKeepsFirstVersion(path);
    VersionOfTail(base.path, tail);
  }

  lemma {:induction false} VersionOfTail(front: string, tail: string)
    requires FirstVersion(Split(front, '/')).None?
    ensures FirstVersion(Split(front + "/" + tail, '/')) == FirstVersion(Split(tail, '/'))
  {
    assert front + "/" + tail == front + ['/'] + tail;
    SplitConcat(front, tail, '/');
    FirstVersionConcat(Split(front, '/'), Split(tail, '/'));
  }

  /** What is read back from {base}/{version}/context.jsonld: the version if it has the shape of one, else nothing. */
  lemma {:induction false} ContextVersion(base: AbsoluteUrl, version: string, acceptsHost: string -> bool)
    requires UnversionedBase(base, acceptsHost)
    requires Plain(version) && '/' !in version
    ensures ExtractVersion(base.Text() + "/" + version + "/" + CONTEXT_FILE, acceptsHost) ==
      if IsVersionSegment(version) then Some(version) else None
  {
    var tail := version + "/" + CONTEXT_FILE;
    assert base.Text() + "/" + version + "/" + CONTEXT_FILE == base.Text() + "/" + tail;
    PlainFile(version);
    VersionBelow(base, tail, acceptsHost);
    TailVersion(version);
  }

  lemma {:induction false} PlainFile(version: string)
    requires Plain(version)
    ensures Plain(version + "/" + CONTEXT_FILE)
  {
    assert Plain(CONTEXT_FILE);
  }

  lemma {:induction false} ContextFileIsNoVersion()
    ensures '/' !in CONTEXT_FILE && !IsVersionSegment(CONTEXT_FILE)
  {
    var s := CONTEXT_FILE;
    assert s[0] == 'c' && !IsDigit(s[0]);
  }

  lemma {:induction false} TailVersion(version: string)
    requires '/' !in version
    ensures FirstVersion(Split(version + "/" + CONTEXT_FILE, '/')) ==
      if IsVersionSegment(version) then Some(version) else None
  {
    ContextFileIsNoVersion();
    var file := CONTEXT_FILE;
    SplitWhole(version, '/');
    SplitWhole(file, '/');
    SplitConcat(version, file, '/');
    FirstVersionConcat([version], [file]);
    FirstVersionOfOne(version);
    FirstVersionOfOne(file);
  }

  lemma {:induction false} FirstVersionOfOne(s: string)
    ensures FirstVersion([s]) == if IsVersionSegment(s) then Some(s) else None
  {
    assert [s][1..] == [];
  }

  // ----- What must be translated -----

  /** An object to translate: what it is, the manifest entry it must become, and to which version. */
  datatype Need = Need(from: Ref, to: SchemaObject, canonical: string)
  {
    /** `ToContextURL`: the @context of the translation target. */
    function ToContextURL(): string {
      to.baseURL + "/" + canonical + "/" + CONTEXT_FILE
    }
  }

  /** The type name without its compact-IRI prefix. */
  function LocalName(typ: string): string {
    typ[LastIndexChar(typ, ':') + 1..]
  }

  /** The manifest entry for a type: the last one listed, as later entries overwrite earlier ones. */
  function Supported(objects: seq<SchemaObject>, typ: string): (obj: Option<SchemaObject>)
    ensures obj.Some? ==> obj.value in objects && obj.value.typ == typ
  {
    if objects == [] then None
    else if objects[|objects| - 1].typ == typ then Some(objects[|objects| - 1])
    else Supported(objects[..|objects| - 1], typ)
  }

  /** Whether a reference whose type is listed as `local` must be translated. */
  function NeedAgainst(ref: Ref, local: SchemaObject, defaultPolicy: string,
                       acceptsHost: string -> bool): Option<Need> {
    var version := ExtractVersion(ref.contextURL, acceptsHost);
    if version.Some? && version.value in local.supportedVersions then None
    else
      var canonical := CanonicalVersion(local, defaultPolicy);
      if canonical.None? then None else Some(Need(ref, local, canonical.value))
  }

  /** Whether, and to what, one reference must be translated. A type the manifest does not list needs nothing. */
  function NeedFor(ref: Ref, m: NodeManifest, acceptsHost: string -> bool): Option<Need> {
    var local := Supported(m.schemaObjects, LocalName(ref.typ));
    if local.None? then None else NeedAgainst(ref, local.value, m.defaultVersionPolicy, acceptsHost)
  }

  function Needs(refs: seq<Ref>, m: NodeManifest, acceptsHost: string -> bool): seq<Need> {
    if refs == [] then []
    else
      var front := Needs(refs[..|refs| - 1], m, acceptsHost);
      match NeedFor(refs[|refs| - 1], m, acceptsHost)
      case None => front
      case Some(need) => front + [need]
  }

  ghost predicate IsTable(supported: map<string, SchemaObject>, objects: seq<SchemaObject>) {
    forall t :: Supported(objects, t) == if t in supported then Some(supported[t]) else None
  }

  /** The lookup table `CheckCompatibility` builds first. */
  method SupportedTypes(objects: seq<SchemaObject>) returns (supported: map<string, SchemaObject>)
    ensures IsTable(supported, objects)
  {
    supported := map[];
    for i := 0 to |objects|
      invariant IsTable(supported, objects[..i])
    {
      assert objects[..i + 1][..i] == objects[..i];
      supported := supported[objects[i].typ := objects[i]];
    }
    assert objects[..|objects|] == objects;
  }

  /** The needs are exactly those of the references, one at a time. */
  lemma {:induction false} NeedsOfRefs(refs: seq<Ref>, m: NodeManifest, acceptsHost: string -> bool, need: Need)
    ensures need in Needs(refs, m, acceptsHost) <==>
      need.from in refs && NeedFor(need.from, m, acceptsHost) == Some(need)
  {
    if refs != [] {
      var front, last := refs[..|refs| - 1], refs[|refs| - 1];
      NeedsOfRefs(front, m, acceptsHost, need);
      assert need.from in refs <==> need.from in front || need.from == last;
    }
  }

  // ----- What a need is, said without the functions that compute it -----

  /** What follows the last colon, or all of it if there is none. */
  predicate IsLocalName(local: string, typ: string) {
    HasSuffix(typ, local) && ':' !in local && (|local| < |typ| ==> typ[|typ| - |local| - 1] == ':')
  }

  lemma {:induction false} LocalNameIff(local: string, typ: string)
    ensures local == LocalName(typ) <==> IsLocalName(local, typ)
  {
    var i := LastIndexChar(typ, ':');
    if IsLocalName(local, typ) {
      var n := |typ| - |local|;
      assert forall k :: 0 <= k < |local| ==> typ[n + k] == local[k];
      assert forall k :: n <= k < |typ| ==> typ[k] == local[k - n];
      assert i < n;
    } else {
      assert forall k :: 0 <= k < |LocalName(typ)| ==> LocalName(typ)[k] == typ[i + 1 + k];
    }
  }

  /** The entry stands in the list, and none after it is for the same type. */
  predicate LastListed(objects: seq<SchemaObject>, obj: SchemaObject) {
    exists i :: 0 <= i < |objects| && objects[i] == obj && forall k :: i < k < |objects| ==> objects[k].typ != obj.typ
  }

  lemma {:induction false} LastListedMore(objects: seq<SchemaObject>, last: SchemaObject, obj: SchemaObject)
    ensures LastListed(objects + [last], obj) <==> last == obj || (last.typ != obj.typ && LastListed(objects, obj))
  {
    var all, n := objects + [last], |objects|;
    assert all[n] == last;
    if last.typ != obj.typ && LastListed(all, obj) {
      var i :| 0 <= i < |all| && all[i] == obj && forall k :: i < k < |all| ==> all[k].typ != obj.typ;
      assert objects[i] == obj && forall k :: i < k < n ==> objects[k] == all[k];
    }
    if last.typ != obj.typ && LastListed(objects, obj) {
      var i :| 0 <= i < n && objects[i] == obj && forall k :: i < k < n ==> objects[k].typ != obj.typ;
      assert all[i] == obj && forall k :: 0 <= k < n ==> objects[k] == all[k];
    }
  }

  lemma {:induction false} SupportedIff(objects: seq<SchemaObject>, obj: SchemaObject)
    ensures Supported(objects, obj.typ) == Some(obj) <==> LastListed(objects, obj)
  {
    if objects != [] {
      var front, last := objects[..|objects| - 1], objects[|objects| - 1];
      SupportedIff(front, obj);
      LastListedMore(front, last, obj);
      assert objects == front + [last];
    }
  }

  /** The first listed version of those that no listed one is newer than. */
  predicate IsFirstLatest(versions: seq<string>, best: string) {
    && best in versions && (forall v :: v in versions ==> !Newer(v, best))
    && exists i :: 0 <= i < |versions| && versions[i] == best && forall k :: 0 <= k < i ==> Newer(best, versions[k])
  }

  predicate WantsPinned(obj: SchemaObject, defaultPolicy: string) {
    obj.versionPolicy == "pinned" || (obj.versionPolicy == "" && defaultPolicy == "pinned")
  }

  predicate WantsLatest(obj: SchemaObject, defaultPolicy: string) {
    obj.versionPolicy == "latest" || (obj.versionPolicy == "" && (defaultPolicy == "latest" || defaultPolicy == ""))
  }

  /** The manifest entry asks for this version: its pin, or the latest one it supports. */
  predicate AsksFor(obj: SchemaObject, defaultPolicy: string, version: string) {
    obj.supportedVersions != [] &&
    ((WantsPinned(obj, defaultPolicy) && version == obj.pinnedVersion && version != "") ||
     (WantsLatest(obj, defaultPolicy) && IsFirstLatest(obj.supportedVersions, version)))
  }

  predicate Comparable(obj: SchemaObject, defaultPolicy: string) {
    WantsLatest(obj, defaultPolicy) ==> forall v :: v in obj.supportedVersions ==> NonNegative(v)
  }

  lemma {:induction false} LastTakenIff(versions: seq<string>)
    requires |versions| > 1 && forall v :: v in versions ==> NonNegative(v)
    ensures var n := |versions| - 1;
      Latest(versions) == if Newer(versions[n], Latest(versions[..n])) then versions[n] else Latest(versions[..n])
  {
    var n := |versions| - 1;
    LatestIsListed(versions[..n]);
    NonNegativeFits(versions[n], Latest(versions[..n]));
    CompareAgreesIff(versions[n], Latest(versions[..n]));
  }

  lemma {:induction false} NewerThanLatest(versions: seq<string>, last: string, k: nat)
    requires k < |versions| && (forall v :: v in versions ==> NonNegative(v)) && Newer(last, Latest(versions))
    ensures Newer(last, versions[k])
  {
    LatestIsMaximal(versions, versions[k]);
  }

  predicate NewerThanBefore(versions: seq<string>, i: nat)
    requires i < |versions|
  {
    forall k :: 0 <= k < i ==> Newer(versions[i], versions[k])
  }

  lemma {:induction false} NewerInFront(versions: seq<string>, n: nat, i: nat)
    requires i < n <= |versions| && NewerThanBefore(versions[..n], i)
    ensures NewerThanBefore(versions, i)
  {
    forall k | 0 <= k < i ensures Newer(versions[i], versions[k]) {
      assert Newer(versions[..n][i], versions[..n][k]);
    }
  }

  lemma {:induction false} LastNewerThanBefore(versions: seq<string>, n: nat)
    requires |versions| == n + 1 && n > 0 && forall v :: v in versions ==> NonNegative(v)
    requires Newer(versions[n], Latest(versions[..n]))
    ensures NewerThanBefore(versions, n)
  {
    forall k | 0 <= k < n ensures Newer(versions[n], versions[k]) {
      NewerThanLatest(versions[..n], versions[n], k);
    }
  }

  /** The latest is strictly newer than all that stands before it. */
  lemma {:induction false} LatestComesFirst(versions: seq<string>) returns (i: nat)
    requires versions != [] && forall v :: v in versions ==> NonNegative(v)
    ensures i < |versions| && versions[i] == Latest(versions) && NewerThanBefore(versions, i)
  {
    var n := |versions| - 1;
    if n == 0 {
      i := 0;
    } else {
      LastTakenIff(versions);
      if Newer(versions[n], Latest(versions[..n])) {
        LastNewerThanBefore(versions, n);
        i := n;
      } else {
        i := LatestComesFirst(versions[..n]);
        NewerInFront(versions, n, i);
      }
    }
  }

  lemma {:induction false} FirstLatestIff(versions: seq<string>, best: string)
    requires versions != [] && forall v :: v in versions ==> NonNegative(v)
    ensures best == Latest(versions) <==> IsFirstLatest(versions, best)
  {
    var i := LatestComesFirst(versions);
    forall v | v in versions ensures !Newer(v, Latest(versions)) {
      LatestIsMaximal(versions, v);
    }
    if IsFirstLatest(versions, best) {
      var k :| 0 <= k < |versions| && versions[k] == best && forall l :: 0 <= l < k ==> Newer(best, versions[l]);
      assert versions[i] in versions;
    }
  }

  lemma {:induction false} CanonicalIff(obj: SchemaObject, defaultPolicy: string, version: string)
    requires Comparable(obj, defaultPolicy)
    ensures CanonicalVersion(obj, defaultPolicy) == Some(version) <==> AsksFor(obj, defaultPolicy, version)
  {
    if obj.supportedVersions != [] && WantsLatest(obj, defaultPolicy) {
      FirstLatestIff(obj.supportedVersions, version);
    }
  }

  /** The reference is of a listed type, its version is not supported, and the entry for the type asks for the version
      to translate to. */
  predicate Reports(refs: seq<Ref>, m: NodeManifest, acceptsHost: string -> bool, need: Need) {
    && need.from in refs && LastListed(m.schemaObjects, need.to) && IsLocalName(need.to.typ, need.from.typ)
    && (forall v :: v in need.to.supportedVersions ==> ExtractVersion(need.from.contextURL, acceptsHost) != Some(v))
    && AsksFor(need.to, m.defaultVersionPolicy, need.canonical)
  }

  predicate ComparableManifest(m: NodeManifest) {
    forall obj :: obj in m.schemaObjects ==> Comparable(obj, m.defaultVersionPolicy)
  }

  /** Exactly this is reported, whenever the versions to choose the latest from have no negative parts. */
  lemma {:induction false} NeedsIff(refs: seq<Ref>, m: NodeManifest, acceptsHost: string -> bool, need: Need)
    requires ComparableManifest(m)
    ensures need in Needs(refs, m, acceptsHost) <==> Reports(refs, m, acceptsHost, need)
  {
    NeedsOfRefs(refs, m, acceptsHost, need);
    LocalNameIff(need.to.typ, need.from.typ);
    SupportedIff(m.schemaObjects, need.to);
    if need.to in m.schemaObjects {
      CanonicalIff(need.to, m.defaultVersionPolicy, need.canonical);
    }
  }

  /** What `CheckCompatibility` asks of one reference and the entry for its type. */
  method CheckRef(ref: Ref, local: SchemaObject, defaultPolicy: string, acceptsHost: string -> bool)
    returns (need: Option<Need>)
    ensures need == NeedAgainst(ref, local, defaultPolicy, acceptsHost)
  {
    var version := ExtractVersionSegment(ref.contextURL, acceptsHost);
    if version.Some? {
      var listed := IsListed(local.supportedVersions, version.value);
      if listed {
        return None;
      }
    }
    var canonical := CanonicalOf(local, defaultPolicy);
    if canonical.None? {
      return None;
    }
    return Some(Need(ref, local, canonical.value));
  }

  /** `CheckCompatibility`; None when there is no manifest. */
  method CheckCompatibility(refs: seq<Ref>, manifest: Option<NodeManifest>, acceptsHost: string -> bool)
    returns (needs: Option<seq<Need>>)
    ensures needs.None? <==> manifest.None?
    ensures manifest.Some? ==> needs == Some(Needs(refs, manifest.value, acceptsHost))
    ensures manifest.Some? && ComparableManifest(manifest.value) ==>
      forall need :: need in needs.value <==> Reports(refs, manifest.value, acceptsHost, need)
  {
    if manifest.None? {
      return None;
    }
    var m := manifest.value;
    var supported := SupportedTypes(m.schemaObjects);
    var found := CheckRefs(refs, m, supported, acceptsHost);
    forall need | ComparableManifest(m) ensures need in found <==> Reports(refs, m, acceptsHost, need) {
      NeedsIff(refs, m, acceptsHost, need);
    }
    needs := Some(found);
  }

  /** The loop of `CheckCompatibility`. */
  method CheckRefs(refs: seq<Ref>, m: NodeManifest, supported: map<string, SchemaObject>, acceptsHost: string -> bool)
    returns (needs: seq<Need>)
    requires IsTable(supported, m.schemaObjects)
    ensures needs == Needs(refs, m, acceptsHost)
  {
    needs := [];
    for i := 0 to |refs|
      invariant needs == Needs(refs[..i], m, acceptsHost)
    {
      var need := LookUpAndCheck(refs[i], m, supported, acceptsHost);
      NeedsGrow(refs, i, m, acceptsHost, need);
      if need.Some? {
        needs := needs + [need.value];
      }
    }
    assert refs[..|refs|] == refs;
  }

  lemma {:induction false} NeedsGrow(refs: seq<Ref>, i: nat, m: NodeManifest, acceptsHost: string -> bool,
                                     need: Option<Need>)
    requires i < |refs| && need == NeedFor(refs[i], m, acceptsHost)
    ensures Needs(refs[..i + 1], m, acceptsHost) ==
      Needs(refs[..i], m, acceptsHost) + if need.Some? then [need.value] else []
  {
    assert refs[..i + 1][..i] == refs[..i];
  }

  /** `CheckCompatibility` takes the prefix off only if there is one. */
  method TypeName(typ: string) returns (name: string)
    ensures name == LocalName(typ)
  {
    var colon := LastIndexChar(typ, ':');
    name := typ;
    if colon >= 0 {
      name := typ[colon + 1..];
    }
  }

  method LookUpAndCheck(ref: Ref, m: NodeManifest, supported: map<string, SchemaObject>, acceptsHost: string -> bool)
    returns (need: Option<Need>)
    requires IsTable(supported, m.schemaObjects)
    ensures need == NeedFor(ref, m, acceptsHost)
  {
    var typeName := TypeName(ref.typ);
    if typeName !in supported {
      UnlistedNeed(ref, m, acceptsHost, typeName);
      return None;
    }
    need := CheckRef(ref, supported[typeName], m.defaultVersionPolicy, acceptsHost);
    ListedNeed(ref, m, acceptsHost, supported[typeName], need);
  }

  lemma {:induction false} UnlistedNeed(ref: Ref, m: NodeManifest, acceptsHost: string -> bool, name: string)
    requires name == LocalName(ref.typ) && Supported(m.schemaObjects, name) == None
    ensures NeedFor(ref, m, acceptsHost) == None
  {}

  lemma {:induction false} ListedNeed(ref: Ref, m: NodeManifest, acceptsHost: string -> bool, local: SchemaObject,
                                      need: Option<Need>)
    requires Supported(m.schemaObjects, LocalName(ref.typ)) == Some(local)
    requires need == NeedAgainst(ref, local, m.defaultVersionPolicy, acceptsHost)
    ensures NeedFor(ref, m, acceptsHost) == need
  {}

  /** An object carrying the @context it was to be translated to is reported again exactly when the
      canonical version does not have the shape of a version. */
  lemma {:induction false} TranslatedIsCompatibleIff(ref: Ref, m: NodeManifest, base: AbsoluteUrl,
                                                     acceptsHost: string -> bool)
    requires ValidSchema(m) && NeedFor(ref, m, acceptsHost).Some?
    requires var need := NeedFor(ref, m, acceptsHost).value;
      need.to.baseURL == base.Text() && UnversionedBase(base, acceptsHost) && Plain(need.canonical) &&
          '/' !in need.canonical
    ensures var need := NeedFor(ref, m, acceptsHost).value;
      NeedFor(ref.(contextURL := need.ToContextURL()), m, acceptsHost).None? <==> IsVersionSegment(need.canonical)
  {
    var need := NeedFor(ref, m, acceptsHost).value;
    CanonicalIsSupported(m, need.to);
    ContextVersion(base, need.canonical, acceptsHost);
  }

  /** `deriveArtifactURL`: {base}/{canonical}/{type}_from_{version}.jsonata, None when the old context names no
      version. */
  function ArtifactURL(need: Need, acceptsHost: string -> bool): Option<string> {
    var version := ExtractVersion(need.from.contextURL, acceptsHost);
    if version.None? then None
    else Some(need.to.baseURL + "/" + need.canonical + "/" + need.from.typ + "_from_" + version.value + ".jsonata")
  }

  method DeriveArtifactURL(need: Need, acceptsHost: string -> bool) returns (url: Option<string>)
    ensures url == ArtifactURL(need, acceptsHost)
  {
    var fromVersion := ExtractVersionSegment(need.from.contextURL, acceptsHost);
    if fromVersion.None? {
      return None;
    }
    var name := need.from.typ + "_from_" + fromVersion.value + ".jsonata";
    assert need.to.baseURL + "/" + need.canonical + "/" + name == ArtifactURL(need, acceptsHost).value;
    return Some(need.to.baseURL + "/" + need.canonical + "/" + name);
  }

  /** The artifact that brings an object of {base}/{version}/context.jsonld up to a target is looked for beside the
      @context of the target, named for the type as the object writes it and for its old version. */
  lemma {:induction false} ArtifactBesideTarget(need: Need, base: AbsoluteUrl, version: string,
                                                acceptsHost: string -> bool)
    requires UnversionedBase(base, acceptsHost) && Plain(version) && '/' !in version && IsVersionSegment(version)
    requires need.from.contextURL == base.Text() + "/" + version + "/" + "context.jsonld"
    ensures var folder := need.to.baseURL + "/" + need.canonical + "/";
      && need.ToContextURL() == folder + "context.jsonld"
      && ArtifactURL(need, acceptsHost) == Some(folder + need.from.typ + "_from_" + version + ".jsonata")
  {
    ContextVersion(base, version, acceptsHost);
  }
}
