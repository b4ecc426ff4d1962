/** Printing and parsing the Authorization and Signature headers.
    step.go: generateAuthHeader, parseHeader, authHeaderIncludesRequestSig, extractAuthSignature.
    responsestep.go: buildSignatureHeader. signvalidator.go: parseAuthHeader. */
module AuthHeader {
  import opened Text

  // ----- Printing -----

  const THREE_FIELDS := "(created) (expires) digest"
  const REQUEST_SIGNATURE := "request-signature"
  const FOUR_FIELDS := THREE_FIELDS + " " + REQUEST_SIGNATURE

  const ALGORITHM := "ed25519"

  /** The names of the attributes, in the order they are printed. */
  datatype Names = Names(keyId: string, algorithm: string, created: string, expires: string, headers: string,
                         signature: string)

  const NAMES := Names("keyId", "algorithm", "created", "expires", "headers", "signature")

  function KeyIdValue(subID: string, keyID: string): string {
    subID + ['|'] + (keyID + ['|'] + ALGORITHM)
  }

  datatype Attribute = Attribute(name: string, value: string)

  /** name="value" after a lead, for one attribute after the other, separated by commas. */
  function PrintFrom(lead: string, attributes: seq<Attribute>): string
    requires attributes != []
    decreases |attributes|
  {
    (lead + attributes[0].name + "=") + ['"'] +
    (attributes[0].value + ['"'] + (if |attributes| == 1 then "" else PrintFrom(",", attributes[1..])))
  }

  const LEAD := "Signature "

  function HeaderAttributes(n: Names, keyId: string, created: int, expires: int, fields: string,
                            signature: string): seq<Attribute> {
    [Attribute(n.keyId, keyId), Attribute(n.algorithm, ALGORITHM), Attribute(n.created, FormatInt(created)),
     Attribute(n.expires, FormatInt(expires)), Attribute(n.headers, fields), Attribute(n.signature, signature)]
  }

  function Print(keyId: string, created: int, expires: int, fields: string, signature: string): string {
    PrintFrom(LEAD, HeaderAttributes(NAMES, keyId, created, expires, fields, signature))
  }

  /** `generateAuthHeader`: declares the request signature when there is one. */
  function GenerateAuthHeader(subID: string, keyID: string, created: int, expires: int, signature: string,
                              requestSig: string): string {
    Print(KeyIdValue(subID, keyID), created, expires, if requestSig != "" then FOUR_FIELDS else THREE_FIELDS, signature)
  }

  /** `buildSignatureHeader`, of a response. */
  function BuildSignatureHeader(subID: string, keyID: string, created: int, expires: int, signature: string): string {
    Print(KeyIdValue(subID, keyID), created, expires, FOUR_FIELDS, signature)
  }

  // ----- Headers without an attribute -----

  /** Without an attribute to find there is no key, no request signature, and an empty signature. */
  lemma {:induction false} NothingToFind(header: string)
    ensures !Contains(header, "keyId=\"") ==> ParseKeyId(header).None?
    ensures !Contains(header, "headers=\"") ==> !IncludesRequestSig(header)
    ensures !Contains(header, ",signature=\"") ==> ExtractSignature(header) == ""
  {
    Markers();
  }

  lemma {:induction false} Markers()
    ensures Marker("", NAMES.keyId) == "keyId=\"" && Marker("", NAMES.headers) == "headers=\""
    ensures Marker(",", NAMES.signature) == ",signature=\""
  {}

  // ----- Parsing -----

  /** What the attribute's value is searched by: its name, the equals sign and the opening quote. */
  function Marker(lead: string, name: string): string {
    lead + name + "=" + ['"']
  }

  /** The text behind the first occurrence of `marker`. */
  function TextAfter(header: string, marker: string): Option<string> {
    var i := Index(header, marker);
    if i == -1 then None else Some(header[i + |marker|..])
  }

  /** The text between the first occurrence of `marker` and the next quote. */
  function ValueAfter(header: string, marker: string): Option<string> {
    var rest := TextAfter(header, marker);
    if rest.None? then None
    else
      var end := IndexChar(rest.value, '"');
      if end == -1 then None else Some(rest.value[..end])
  }

  /** The parts of a keyId. */
  datatype KeyId = KeyId(subscriberID: string, uniqueID: string, algorithm: string)

  /** `parseHeader` */
  function ParseKeyId(header: string): Option<KeyId> {
    var value := ValueAfter(header, Marker("", NAMES.keyId));
    var part := if value.None? then "" else TrimSpace(value.value);
    if part == "" then None
    else
      var parts := Split(part, '|');
      if |parts| != 3 then None
      else Some(KeyId(TrimSpace(parts[0]), TrimSpace(parts[1]), TrimSpace(parts[2])))
  }

  /** `authHeaderIncludesRequestSig` */
  predicate IncludesRequestSig(header: string) {
    var fields := ValueAfter(header, Marker("", NAMES.headers));
    fields.Some? && Contains(fields.value, REQUEST_SIGNATURE)
  }

  /** `extractAuthSignature` */
  function ExtractSignature(header: string): string {
    var signature := ValueAfter(header, Marker(",", NAMES.signature));
    if signature.None? then "" else signature.value
  }

  /** One `key=value` part of the header, quotes trimmed; None without an equals sign. */
  function ParseAttribute(part: string): Option<(string, string)> {
    var p := TrimSpace(part);
    var eq := IndexChar(p, '=');
    if eq == -1 then None else Some((TrimSpace(p[..eq]), TrimChar(p[eq + 1..], '"')))
  }

  /** The attributes of the parts; a later one replaces an earlier one of the same name. */
  function Attributes(parts: seq<string>): map<string, string> {
    if parts == [] then map[]
    else
      var front, last := Attributes(parts[..|parts| - 1]), ParseAttribute(parts[|parts| - 1]);
      if last.None? then front else front[last.value.0 := last.value.1]
  }

  function Lookup(m: map<string, string>, key: string): string {
    if key in m then m[key] else ""
  }

  datatype Fields = Fields(created: int, expires: int, signature: string, subscriberID: string)

  /** What `parseAuthHeader` makes of the attributes; None on any of its errors. */
  function FromAttributes(n: Names, m: map<string, string>): Option<Fields> {
    var created, expires := ParseInt(Lookup(m, n.created)), ParseInt(Lookup(m, n.expires));
    var keyId, signature := Lookup(m, n.keyId), Lookup(m, n.signature);
    var bar := IndexChar(keyId, '|');
    if Lookup(m, n.algorithm) != ALGORITHM || !created.Parsed? || !expires.Parsed? || signature == "" then None
    else Some(Fields(created.value, expires.value, signature, if bar == -1 then "" else TrimSpace(keyId[..bar])))
  }

  function ParseAuthHeader(header: string): Option<Fields> {
    FromAttributes(NAMES, Attributes(Split(TrimPrefix(header, LEAD), ',')))
  }

  /** `parseAuthHeader`: fills a map in a loop over the comma-separated parts. */
  method ParseAuthHeaderLoop(header: string) returns (r: Option<Fields>)
    ensures r == ParseAuthHeader(header)
  {
    var signatureMap := FillAttributes(Split(TrimPrefix(header, "Signature "), ','));
    if "algorithm" !in signatureMap || signatureMap["algorithm"] != "ed25519" {
      return None;
    }
    if "created" !in signatureMap || "expires" !in signatureMap {
      return None;
    }
    var created, expires := ParseInt(signatureMap["created"]), ParseInt(signatureMap["expires"]);
    if !created.Parsed? || !expires.Parsed? {
      return None;
    }
    if "signature" !in signatureMap || signatureMap["signature"] == "" {
      return None;
    }
    var subscriberID := "";
    if "keyId" in signatureMap && '|' in signatureMap["keyId"] {
      var keyID := signatureMap["keyId"];
      subscriberID := TrimSpace(keyID[..IndexChar(keyID, '|')]);
    }
    return Some(Fields(created.value, expires.value, signatureMap["signature"], subscriberID));
  }

  method FillAttributes(parts: seq<string>) returns (signatureMap: map<string, string>)
    ensures signatureMap == Attributes(parts)
  {
    signatureMap := map[];
    for i := 0 to |parts|
      invariant signatureMap == Attributes(parts[..i])
    {
      assert parts[..i + 1][..i] == parts[..i];
      var keyValue := ParseAttribute(parts[i]);
      if keyValue.Some? {
        signatureMap := signatureMap[keyValue.value.0 := keyValue.value.1];
      }
    }
    assert parts[..|parts|] == parts;
  }

  // ----- Values between quotes -----

  /** A marker that ends in its only quote can only match where a quoted piece ends in the marker's text. */
  lemma {:induction false} MatchEndsAtQuote(w: string, rest: string, p: string, i: int)
    requires '"' !in w && '"' !in p
    ensures 0 <= i <= |w| ==> (MatchesAt(w + ['"'] + rest, p + ['"'], i) <==> i + |p| == |w| && HasSuffix(w, p))
    ensures i > |w| ==> (MatchesAt(w + ['"'] + rest, p + ['"'], i) <==> MatchesAt(rest, p + ['"'], i - |w| - 1))
  {
    var s, m := w + ['"'] + rest, p + ['"'];
    if 0 <= i <= |w| {
      if MatchesAt(s, m, i) {
        MatchChars(s, m, i);
        assert s[|w|] == '"';
        assert s[i + |p|] == m[|p|];
        assert forall k :: i <= k < i + |p| ==> s[k] == p[k - i] && p[k - i] in p;
        assert forall k :: 0 <= k < |w| ==> s[k] == w[k] && w[k] in w;
        assert w[i..] == p;
      }
      if i + |p| == |w| && HasSuffix(w, p) {
        assert s[i..i + |m|] == w[i..] + ['"'];
      }
    } else if i > |w| && i + |m| <= |s| {
      assert s[i..i + |m|] == rest[i - |w| - 1..i - |w| - 1 + |m|];
    }
  }

  lemma {:induction false} MatchChars(s: string, m: string, i: int)
    requires MatchesAt(s, m, i)
    ensures forall k :: i <= k < i + |m| ==> s[k] == m[k - i]
  {
    var t := s[i..i + |m|];
    assert forall k :: i <= k < i + |m| ==> s[k] == t[k - i];
  }

  /** Past a first piece that does not end in the marker's text, matches are those of the rest. */
  lemma {:induction false} MatchPeel(w: string, rest: string, p: string, j: int)
    requires '"' !in w && '"' !in p && !HasSuffix(w, p) && 0 <= j
    ensures MatchesAt(w + ['"'] + rest, p + ['"'], |w| + 1 + j) <==> MatchesAt(rest, p + ['"'], j)
    ensures j <= |w| ==> !MatchesAt(w + ['"'] + rest, p + ['"'], j)
  {
    MatchEndsAtQuote(w, rest, p, |w| + 1 + j);
    MatchEndsAtQuote(w, rest, p, j);
  }

  lemma {:induction false} IndexIs(s: string, m: string, i: int)
    requires i == -1 || MatchesAt(s, m, i)
    requires forall k :: 0 <= k && (i == -1 || k < i) ==> !MatchesAt(s, m, k)
    ensures Index(s, m) == i
  {
    var first := Index(s, m);
    assert first != -1 ==> MatchesAt(s, m, first);
  }

  lemma {:induction false} IndexPeel(w: string, rest: string, p: string)
    requires '"' !in w && '"' !in p && !HasSuffix(w, p)
    ensures var m := p + ['"'];
      Index(w + ['"'] + rest, m) == if Index(rest, m) == -1 then -1 else |w| + 1 + Index(rest, m)
  {
    var s, m := w + ['"'] + rest, p + ['"'];
    var j := Index(rest, m);
    var i := if j == -1 then -1 else |w| + 1 + j;
    if j != -1 {
      MatchPeel(w, rest, p, j);
    }
    forall k | 0 <= k && (i == -1 || k < i) ensures !MatchesAt(s, m, k) {
      if k <= |w| {
        MatchPeel(w, rest, p, k);
      } else {
        MatchPeel(w, rest, p, k - |w| - 1);
      }
    }
    IndexIs(s, m, i);
  }

  lemma {:induction false} IndexHere(w: string, rest: string, p: string)
    requires '"' !in w && '"' !in p && HasSuffix(w, p)
    ensures Index(w + ['"'] + rest, p + ['"']) == |w| - |p|
  {
    var s, m := w + ['"'] + rest, p + ['"'];
    var i := Index(s, m);
    MatchEndsAtQuote(w, rest, p, |w| - |p|);
    MatchEndsAtQuote(w, rest, p, i);
  }

  lemma {:induction false} TailPeel(w: string, rest: string, k: nat)
    requires k <= |rest|
    ensures (w + ['"'] + rest)[|w| + 1 + k..] == rest[k..]
  {}

  lemma {:induction false} TextPeel(w: string, rest: string, p: string)
    requires '"' !in w && '"' !in p && !HasSuffix(w, p)
    ensures TextAfter(w + ['"'] + rest, p + ['"']) == TextAfter(rest, p + ['"'])
  {
    IndexPeel(w, rest, p);
    var m := p + ['"'];
    var j := Index(rest, m);
    if j != -1 {
      assert MatchesAt(rest, m, j);
      TailPeel(w, rest, j + |m|);
    }
  }

  lemma {:induction false} ValuePeel(w: string, rest: string, p: string)
    requires '"' !in w && '"' !in p && !HasSuffix(w, p)
    ensures ValueAfter(w + ['"'] + rest, p + ['"']) == ValueAfter(rest, p + ['"'])
  {
    TextPeel(w, rest, p);
  }

  lemma {:induction false} ValueHere(w: string, value: string, after: string, p: string)
    requires '"' !in w && '"' !in p && '"' !in value && HasSuffix(w, p)
    ensures ValueAfter(w + ['"'] + (value + ['"'] + after), p + ['"']) == Some(value)
  {
    var rest := value + ['"'] + after;
    var s := w + ['"'] + rest;
    IndexHere(w, rest, p);
    assert s[|w| + 1..] == rest;
    assert forall i :: 0 <= i < |value| ==> rest[i] == value[i];
    FirstAt(rest, '"', |value|);
    assert rest[..|value|] == value;
  }

  /** A marker does not end inside or right before an attribute's value. */
  predicate Passes(lead: string, a: Attribute, p: string) {
    && '"' !in a.name && '"' !in a.value && !HasSuffix(lead + a.name + "=", p)
    && (a.value == "" || a.value[|a.value| - 1] != '=')
  }

  lemma {:induction false} PassAttribute(lead: string, a: Attribute, tail: string, p: string)
    requires '"' !in lead && '"' !in p && p != "" && p[|p| - 1] == '=' && Passes(lead, a, p)
    ensures ValueAfter((lead + a.name + "=") + ['"'] + (a.value + ['"'] + tail), p + ['"']) ==
      ValueAfter(tail, p + ['"'])
  {
    ValuePeel(lead + a.name + "=", a.value + ['"'] + tail, p);
    PassValue(a.value, tail, p);
  }

  lemma {:induction false} PassValue(value: string, tail: string, p: string)
    requires '"' !in value && '"' !in p && p != "" && p[|p| - 1] == '='
    requires value == "" || value[|value| - 1] != '='
    ensures ValueAfter(value + ['"'] + tail, p + ['"']) == ValueAfter(tail, p + ['"'])
  {
    if value != "" { DifferFromEnd(value, p, 0); }
    ValuePeel(value, tail, p);
  }

  function Tail(attributes: seq<Attribute>): string {
    if |attributes| <= 1 then "" else PrintFrom(",", attributes[1..])
  }

  predicate EndsIn(lead: string, a: Attribute, p: string) {
    HasSuffix(lead + a.name + "=", p) && '"' !in a.name && '"' !in a.value
  }

  lemma {:induction false} FirstValue(lead: string, attributes: seq<Attribute>, p: string)
    requires attributes != [] && '"' !in lead && '"' !in p && EndsIn(lead, attributes[0], p)
    ensures ValueAfter(PrintFrom(lead, attributes), p + ['"']) == Some(attributes[0].value)
  {
    ValueHere(lead + attributes[0].name + "=", attributes[0].value, Tail(attributes), p);
  }

  lemma {:induction false} SkipFirst(lead: string, attributes: seq<Attribute>, p: string)
    requires |attributes| > 1 && '"' !in lead && '"' !in p && p != "" && p[|p| - 1] == '=' &&
      Passes(lead, attributes[0], p)
    ensures ValueAfter(PrintFrom(lead, attributes), p + ['"']) == ValueAfter(PrintFrom(",", attributes[1..]), p + ['"'])
  {
    PassAttribute(lead, attributes[0], Tail(attributes), p);
  }

  ghost predicate RestPasses(attributes: seq<Attribute>, p: string, from: nat, to: nat) {
    forall i :: from <= i < to && i < |attributes| ==> Passes(",", attributes[i], p)
  }

  lemma {:induction false} RestShifted(attributes: seq<Attribute>, p: string, to: nat)
    requires attributes != [] && RestPasses(attributes, p, 1, to + 1)
    ensures RestPasses(attributes[1..], p, 0, to)
  {
    forall i | 0 <= i < to && i < |attributes[1..]| ensures Passes(",", attributes[1..][i], p) {
      assert attributes[1..][i] == attributes[i + 1];
    }
  }

  /** The value after a marker is the value of the first attribute whose printed name ends in the marker. */
  lemma {:induction false} AttributeValue(lead: string, attributes: seq<Attribute>, p: string, k: nat)
    requires k < |attributes| && '"' !in lead && '"' !in p && p != "" && p[|p| - 1] == '='
    requires (k > 0 ==> Passes(lead, attributes[0], p)) && RestPasses(attributes, p, 1, k)
    requires EndsIn(if k == 0 then lead else ",", attributes[k], p)
    ensures ValueAfter(PrintFrom(lead, attributes), p + ['"']) == Some(attributes[k].value)
    decreases k
  {
    if k == 0 {
      FirstValue(lead, attributes, p);
    } else {
      SkipFirst(lead, attributes, p);
      RestShifted(attributes, p, k - 1);
      assert k > 1 ==> Passes(",", attributes[1..][0], p);
      assert attributes[1..][k - 1] == attributes[k];
      AttributeValue(",", attributes[1..], p, k - 1);
    }
  }

  // ----- Commas -----

  function AttributeText(a: Attribute): string {
    a.name + "=" + ['"'] + a.value + ['"']
  }

  function AttributeTexts(attributes: seq<Attribute>): (texts: seq<string>)
    ensures |texts| == |attributes| && forall i :: 0 <= i < |attributes| ==> texts[i] == AttributeText(attributes[i])
  {
    seq(|attributes|, i requires 0 <= i < |attributes| => AttributeText(attributes[i]))
  }

  lemma {:induction false} PrintIsJoin(lead: string, attributes: seq<Attribute>)
    requires attributes != []
    ensures PrintFrom(lead, attributes) == lead + Join(AttributeTexts(attributes), ',')
    decreases |attributes|
  {
    var texts := AttributeTexts(attributes);
    if |attributes| > 1 {
      PrintIsJoin(",", attributes[1..]);
      assert texts[1..] == AttributeTexts(attributes[1..]);
      Regroup(lead, attributes[0].name, attributes[0].value, Join(texts[1..], ','));
    } else {
      Regroup(lead, attributes[0].name, attributes[0].value, "");
    }
  }

  /** The header as it is sent. That of a response always declares a request signature. */
  lemma {:induction false} HeaderText(subID: string, keyID: string, created: int, expires: int, signature: string,
                                      requestSig: string)
    ensures GenerateAuthHeader(subID, keyID, created, expires, signature, requestSig) ==
      "Signature " + Join(AttributeTexts(
        [Attribute("keyId", subID + "|" + keyID + "|ed25519"), Attribute("algorithm", "ed25519"),
         Attribute("created", FormatInt(created)), Attribute("expires", FormatInt(expires)),
         Attribute("headers", "(created) (expires) digest" + if requestSig == "" then "" else " request-signature"),
         Attribute("signature", signature)]), ',')
    ensures requestSig != "" ==>
      BuildSignatureHeader(subID, keyID, created, expires, signature) ==
        GenerateAuthHeader(subID, keyID, created, expires, signature, requestSig)
  {
    var fields := "(created) (expires) digest" + if requestSig == "" then "" else " request-signature";
    assert KeyIdValue(subID, keyID) == subID + "|" + keyID + "|ed25519";
    assert fields == if requestSig != "" then FOUR_FIELDS else THREE_FIELDS;
    PrintIsJoin(LEAD, HeaderAttributes(NAMES, KeyIdValue(subID, keyID), created, expires, fields, signature));
  }

  lemma {:induction false} Regroup(lead: string, name: string, value: string, tail: string)
    ensures (lead + name + "=") + ['"'] + (value + ['"'] + ("," + tail)) == lead +
      (AttributeText(Attribute(name, value)) + [','] + tail)
    ensures (lead + name + "=") + ['"'] + (value + ['"'] + "") == lead + AttributeText(Attribute(name, value))
  {}

  predicate CleanName(name: string) {
    name != "" && '=' !in name && ',' !in name && '"' !in name && !IsSpace(name[0]) && !IsSpace(name[|name| - 1])
  }

  lemma {:induction false} AttributeParses(a: Attribute)
    requires CleanName(a.name) && '"' !in a.value
    ensures ParseAttribute(AttributeText(a)) == Some((a.name, a.value))
  {
    var text := AttributeText(a);
    var quoted := ['"'] + a.value + ['"'];
    assert text == a.name + ['='] + quoted;
    TrimSpaceKeeps(text);
    assert forall i :: 0 <= i < |a.name| ==> text[i] == a.name[i];
    FirstAt(text, '=', |a.name|);
    assert text[..|a.name|] == a.name && text[|a.name| + 1..] == quoted;
    TrimSpaceKeeps(a.name);
    TrimQuoted(a.value, '"');
  }

  /** The attribute map holds, for each name, the value of the last attribute with that name. */
  lemma {:induction false} AttributesHold(attributes: seq<Attribute>, k: nat)
    requires k < |attributes|
    requires forall i :: 0 <= i < |attributes| ==> CleanName(attributes[i].name) && '"' !in attributes[i].value
    requires forall i :: k < i < |attributes| ==> attributes[i].name != attributes[k].name
    ensures Lookup(Attributes(AttributeTexts(attributes)), attributes[k].name) == attributes[k].value
  {
    var n := |attributes| - 1;
    LastAttribute(attributes);
    if k < n {
      AttributesHold(attributes[..n], k);
    }
  }

  lemma {:induction false} LastAttribute(attributes: seq<Attribute>)
    requires attributes != [] && CleanName(attributes[|attributes| - 1].name) &&
      '"' !in attributes[|attributes| - 1].value
    ensures var n := |attributes| - 1;
      Attributes(AttributeTexts(attributes)) ==
      Attributes(AttributeTexts(attributes[..n]))[attributes[n].name := attributes[n].value]
  {
    var n := |attributes| - 1;
    assert AttributeTexts(attributes)[..n] == AttributeTexts(attributes[..n]);
    AttributeParses(attributes[n]);
  }

  // ----- Round trips -----

  /** An ID that a header can carry. */
  predicate Clean(s: string) {
    '"' !in s && '|' !in s && ',' !in s
  }

  predicate CleanSignature(s: string) {
    s != "" && '"' !in s && ',' !in s
  }

  lemma {:induction false} TrimLeftConcat(s: string, rest: string)
    requires rest != "" && !IsSpace(rest[0])
    ensures TrimLeft(s + rest) == TrimLeft(s) + rest
  {
    if s == "" {
      assert s + rest == rest;
    } else {
      assert (s + rest)[1..] == s[1..] + rest;
      TrimLeftConcat(s[1..], rest);
    }
  }

  lemma {:induction false} TrimLeftTwice(s: string)
    ensures TrimLeft(TrimLeft(s)) == TrimLeft(s)
    ensures forall c :: c in TrimLeft(s) ==> c in s
  {
    if s != "" { TrimLeftTwice(s[1..]); }
  }

  lemma {:induction false} AlgorithmText()
    ensures var alg := ALGORITHM;
      '"' !in alg && ',' !in alg && '|' !in alg && alg != "" && !IsSpace(alg[0]) && alg[|alg| - 1] == '9'
  {}

  /** The keyId parts come back, trimmed. */
  lemma {:induction false} KeyIdRoundTrip(header: string, subID: string, keyID: string)
    requires Clean(subID) && Clean(keyID) && ValueAfter(header, Marker("", NAMES.keyId)) ==
      Some(KeyIdValue(subID, keyID))
    ensures ParseKeyId(header) == Some(KeyId(TrimSpace(subID), TrimSpace(keyID), ALGORITHM))
  {
    AlgorithmText();
    ThreeParts(subID, keyID, ALGORITHM);
    TrimSpaceKeeps(ALGORITHM);
    TrimLeftTwice(subID);
  }

  lemma {:induction false} ThreeParts(a: string, b: string, c: string)
    requires '|' !in a && '|' !in b && '|' !in c && c != "" && !IsSpace(c[|c| - 1])
    ensures var part := TrimSpace(a + ['|'] + (b + ['|'] + c));
      part != "" && Split(part, '|') == [TrimLeft(a), b, c]
  {
    var tail := b + ['|'] + c;
    TrimLeftTwice(a);
    TrimmedBeforeBar(a, tail);
    SplitConcat(TrimLeft(a), tail, '|');
    SplitWhole(TrimLeft(a), '|');
    SplitPair(b, c);
  }

  /** Text that ends in no space loses only the spaces in front. */
  lemma {:induction false} TrimmedBeforeBar(a: string, tail: string)
    requires tail != "" && !IsSpace(tail[|tail| - 1])
    ensures TrimSpace(a + ['|'] + tail) == TrimLeft(a) + ['|'] + tail
  {
    var whole, part := a + ['|'] + tail, TrimLeft(a) + ['|'] + tail;
    assert whole == a + (['|'] + tail);
    TrimLeftConcat(a, ['|'] + tail);
    assert TrimLeft(whole) == part;
    assert part[|part| - 1] == tail[|tail| - 1];
  }

  lemma {:induction false} SplitPair(b: string, c: string)
    requires '|' !in b && '|' !in c
    ensures Split(b + ['|'] + c, '|') == [b, c]
  {
    SplitConcat(b, c, '|');
    SplitWhole(b, '|');
    SplitWhole(c, '|');
  }

  lemma {:induction false} ContainsAtEnd(a: string, p: string)
    ensures Contains(a + p, p)
  {
    assert MatchesAt(a + p, p, |a|);
  }

  lemma {:induction false} ContainsBringsChars(s: string, p: string, k: nat)
    requires Contains(s, p) && k < |p|
    ensures p[k] in s
  {
    var i := Index(s, p);
    MatchChars(s, p, i);
    assert s[i + k] == p[k];
  }

  predicate IsFields(fields: string) {
    fields == THREE_FIELDS || fields == FOUR_FIELDS
  }

  lemma {:induction false} ThreeFieldsText()
    ensures '"' !in THREE_FIELDS && ',' !in THREE_FIELDS && 'q' !in THREE_FIELDS &&
      THREE_FIELDS[|THREE_FIELDS| - 1] == 't'
  {}

  lemma {:induction false} RequestSignatureText()
    ensures '"' !in REQUEST_SIGNATURE && ',' !in REQUEST_SIGNATURE
    ensures |REQUEST_SIGNATURE| == 17 && REQUEST_SIGNATURE[2] == 'q' && REQUEST_SIGNATURE[16] == 'e'
  {}

  lemma {:induction false} FieldsText(fields: string)
    requires IsFields(fields)
    ensures '"' !in fields && ',' !in fields && fields != "" && fields[|fields| - 1] != '='
    ensures Contains(fields, REQUEST_SIGNATURE) <==> fields == FOUR_FIELDS
  {
    ThreeFieldsText();
    RequestSignatureText();
    FieldsDiffer();
    AppendedField(THREE_FIELDS, REQUEST_SIGNATURE, 2);
  }

  /** A field list and the same with one more field, of which no part is in the list. */
  lemma {:induction false} AppendedField(three: string, request: string, k: nat)
    requires three != "" && k < |request| && request[k] !in three
    ensures !Contains(three, request) && Contains(three + " " + request, request)
    ensures var four := three + " " + request; four != "" && four[|four| - 1] == request[|request| - 1]
    ensures forall c :: c in three + " " + request ==> c in three || c == ' ' || c in request
  {
    ContainsAtEnd(three + " ", request);
    if Contains(three, request) {
      ContainsBringsChars(three, request, k);
      assert false;
    }
  }

  lemma {:induction false} FieldsDiffer()
    ensures THREE_FIELDS != FOUR_FIELDS
  {
    assert |FOUR_FIELDS| == |THREE_FIELDS| + 1 + |REQUEST_SIGNATURE|;
  }

  lemma {:induction false} KeyIdText(subID: string, keyID: string)
    requires Clean(subID) && Clean(keyID)
    ensures var k := KeyIdValue(subID, keyID);
      '"' !in k && ',' !in k && k != "" && k[|k| - 1] == '9' && IndexChar(k, '|') == |subID| && k[..|subID|] == subID
  {
    AlgorithmText();
    var k, alg := KeyIdValue(subID, keyID), ALGORITHM;
    assert forall i :: 0 <= i < |subID| ==> k[i] == subID[i] && subID[i] in subID;
    FirstAt(k, '|', |subID|);
    assert k[|k| - 1] == alg[|alg| - 1];
  }

  /** Two texts that differ at one place from the end: neither is a suffix of the other. */
  lemma {:induction false} DifferFromEnd(s: string, p: string, i: nat)
    requires i < |s| && i < |p| && s[|s| - 1 - i] != p[|p| - 1 - i]
    ensures !HasSuffix(s, p)
  {
    assert |p| <= |s| ==> s[|s| - |p|..][|p| - 1 - i] == s[|s| - 1 - i];
  }

  /** A printed name passes a marker if the two differ `i` places from the end of the name. */
  lemma {:induction false} NamePasses(lead: string, a: Attribute, marker: string, i: nat)
    requires '"' !in a.name && '"' !in a.value && (a.value == "" || a.value[|a.value| - 1] != '=')
    requires i < |a.name| && i < |marker| && a.name[|a.name| - 1 - i] != marker[|marker| - 1 - i]
    ensures Passes(lead, a, marker + "=")
  {
    var s, p := lead + a.name + "=", marker + "=";
    assert s[|s| - 2 - i] == a.name[|a.name| - 1 - i];
    assert p[|p| - 2 - i] == marker[|marker| - 1 - i];
    DifferFromEnd(s, p, i + 1);
  }

  lemma {:induction false} NameEnds(lead: string, name: string)
    ensures HasSuffix(lead + name + "=", name + "=")
  {
    assert (lead + name + "=")[|lead|..] == name + "=";
  }

  predicate Quotable(a: Attribute) {
    '"' !in a.name && '"' !in a.value && (a.value == "" || a.value[|a.value| - 1] != '=')
  }

  /** What the parsers need of the attribute names. */
  predicate GoodNames(n: Names) {
    && CleanName(n.keyId) && CleanName(n.algorithm) && CleanName(n.created) && CleanName(n.expires) &&
        CleanName(n.headers) && CleanName(n.signature)
    && |n.headers| > 1 && |n.expires| > 1
    && n.keyId[|n.keyId| - 1] !in {n.headers[|n.headers| - 1], n.signature[|n.signature| - 1]}
    && n.algorithm[|n.algorithm| - 1] !in {n.headers[|n.headers| - 1], n.signature[|n.signature| - 1]}
    && n.created[|n.created| - 1] !in {n.headers[|n.headers| - 1], n.signature[|n.signature| - 1]}
    && n.expires[|n.expires| - 2] != n.headers[|n.headers| - 2]
    && n.expires[|n.expires| - 1] != n.signature[|n.signature| - 1]
    && n.headers[|n.headers| - 1] != n.signature[|n.signature| - 1]
    && n.keyId !in [n.algorithm, n.created, n.expires, n.headers, n.signature]
    && n.algorithm !in [n.created, n.expires, n.headers, n.signature]
    && n.created !in [n.expires, n.headers, n.signature]
    && n.expires !in [n.headers, n.signature]
  }

  /** The three marker searches find the keyId, the covered fields and the signature of a printed header. */
  lemma {:induction false} MarkersFind(n: Names, lead: string, a: seq<Attribute>)
    requires GoodNames(n) && '"' !in lead && NamesOf(n, a) && '"' !in a[5].value
    requires forall i :: 0 <= i < 5 ==> Quotable(a[i])
    ensures ValueAfter(PrintFrom(lead, a), Marker("", n.keyId)) == Some(a[0].value)
    ensures ValueAfter(PrintFrom(lead, a), Marker("", n.headers)) == Some(a[4].value)
    ensures ValueAfter(PrintFrom(lead, a), Marker(",", n.signature)) == Some(a[5].value)
  {
    assert forall name: string :: "" + name == name;
    NameEnds(lead, n.keyId);
    AttributeValue(lead, a, n.keyId + "=", 0);
    FindHeaders(n, lead, a);
    FindSignature(n, lead, a);
  }

  lemma {:induction false} FindHeaders(n: Names, lead: string, a: seq<Attribute>)
    requires GoodNames(n) && '"' !in lead && NamesOf(n, a)
    requires forall i :: 0 <= i < 5 ==> Quotable(a[i])
    ensures ValueAfter(PrintFrom(lead, a), n.headers + "=" + ['"']) == Some(a[4].value)
  {
    NamePasses(lead, a[0], n.headers, 0);
    NamePasses(",", a[1], n.headers, 0);
    NamePasses(",", a[2], n.headers, 0);
    NamePasses(",", a[3], n.headers, 1);
    NameEnds(",", n.headers);
    assert RestPasses(a, n.headers + "=", 1, 4);
    AttributeValue(lead, a, n.headers + "=", 4);
  }

  lemma {:induction false} FindSignature(n: Names, lead: string, a: seq<Attribute>)
    requires GoodNames(n) && '"' !in lead && NamesOf(n, a) && '"' !in a[5].value
    requires forall i :: 0 <= i < 5 ==> Quotable(a[i])
    ensures ValueAfter(PrintFrom(lead, a), "," + n.signature + "=" + ['"']) == Some(a[5].value)
  {
    var marker := "," + n.signature;
    assert marker[|marker| - 1] == n.signature[|n.signature| - 1];
    NamePasses(lead, a[0], marker, 0);
    NamePasses(",", a[1], marker, 0);
    NamePasses(",", a[2], marker, 0);
    NamePasses(",", a[3], marker, 0);
    NamePasses(",", a[4], marker, 0);
    NameEnds("", marker);
    assert "" + marker == marker;
    assert RestPasses(a, marker + "=", 1, 5);
    AttributeValue(lead, a, marker + "=", 5);
  }

  predicate Commaless(a: Attribute) {
    '"' !in a.value && ',' !in a.value
  }

  predicate NamesOf(n: Names, a: seq<Attribute>) {
    |a| == 6 && a[0].name == n.keyId && a[1].name == n.algorithm && a[2].name == n.created && a[3].name == n.expires &&
    a[4].name == n.headers && a[5].name == n.signature
  }

  lemma {:induction false} NamesCleanOf(n: Names, a: seq<Attribute>)
    requires GoodNames(n) && NamesOf(n, a)
    ensures forall i :: 0 <= i < 6 ==> CleanName(a[i].name)
  {}

  lemma {:induction false} TextCommaless(a: Attribute)
    requires CleanName(a.name) && Commaless(a)
    ensures ',' !in AttributeText(a)
  {}

  /** Splitting a printed header at its commas gives its attributes. */
  lemma {:induction false} HeaderSplits(n: Names, lead: string, a: seq<Attribute>)
    requires GoodNames(n) && NamesOf(n, a) && forall i :: 0 <= i < 6 ==> Commaless(a[i])
    ensures Split(TrimPrefix(PrintFrom(lead, a), lead), ',') == AttributeTexts(a)
  {
    var texts := AttributeTexts(a);
    PrintIsJoin(lead, a);
    PrefixTrims(lead, Join(texts, ','));
    NamesCleanOf(n, a);
    forall i | 0 <= i < 6 ensures ',' !in texts[i] {
      TextCommaless(a[i]);
    }
    SplitJoin(texts, ',');
  }

  /** Each attribute is found under its name. */
  lemma {:induction false} HeaderParses(n: Names, a: seq<Attribute>)
    requires GoodNames(n) && NamesOf(n, a) && forall i :: 0 <= i < 6 ==> Commaless(a[i])
    ensures forall i :: 0 <= i < 6 ==> Lookup(Attributes(AttributeTexts(a)), a[i].name) == a[i].value
  {
    NamesCleanOf(n, a);
    assert forall i :: 0 <= i < 6 ==> Commaless(a[i]) && '"' !in a[i].value;
    forall i | 0 <= i < 6 ensures Lookup(Attributes(AttributeTexts(a)), a[i].name) == a[i].value {
      forall j | i < j < 6 ensures a[j].name != a[i].name {}
      AttributesHold(a, i);
    }
  }

  lemma {:induction false} PrefixTrims(p: string, text: string)
    ensures TrimPrefix(p + text, p) == text
  {}

  /** The attributes give back the parts they were made of. */
  lemma {:induction false} PartsComeBack(n: Names, m: map<string, string>, subID: string, keyID: string, created: int,
                                         expires: int, signature: string)
    requires Clean(subID) && Clean(keyID) && IsInt64(created) && IsInt64(expires) && signature != ""
    requires Lookup(m, n.keyId) == KeyIdValue(subID, keyID) && Lookup(m, n.algorithm) == ALGORITHM
    requires Lookup(m, n.created) == FormatInt(created) && Lookup(m, n.expires) == FormatInt(expires) &&
      Lookup(m, n.signature) == signature
    ensures FromAttributes(n, m) == Some(Fields(created, expires, signature, TrimSpace(subID)))
  {
    KeyIdText(subID, keyID);
    ParseFormat(created);
    ParseFormat(expires);
  }

  lemma {:induction false} KeyIdName()
    ensures CleanName(NAMES.keyId)
  {}

  lemma {:induction false} AlgorithmName()
    ensures CleanName(NAMES.algorithm)
  {}

  lemma {:induction false} CreatedName()
    ensures CleanName(NAMES.created)
  {}

  lemma {:induction false} ExpiresName()
    ensures CleanName(NAMES.expires)
  {}

  lemma {:induction false} HeadersName()
    ensures CleanName(NAMES.headers)
  {}

  lemma {:induction false} SignatureName()
    ensures CleanName(NAMES.signature)
  {}

  lemma {:induction false} NamesAreGood()
    ensures GoodNames(NAMES) && '"' !in LEAD
  {
    KeyIdName();
    AlgorithmName();
    CreatedName();
    ExpiresName();
    HeadersName();
    SignatureName();
    var n := NAMES;
    assert |n.keyId| == 5 && |n.algorithm| == 9 && |n.created| == 7 && |n.expires| == 7 && |n.headers| == 7 &&
        |n.signature| == 9;
    assert n.keyId[4] == 'd' && n.algorithm[8] == 'm' && n.created[6] == 'd' && n.expires[6] == 's' &&
        n.headers[6] == 's' && n.signature[8] == 'e';
    assert n.expires[5] == 'e' && n.headers[5] == 'r';
  }

  lemma {:induction false} HeaderShape(keyId: string, created: int, expires: int, fields: string, signature: string)
    requires '"' !in keyId && ',' !in keyId && keyId != "" && keyId[|keyId| - 1] == '9' && IsFields(fields) &&
      CleanSignature(signature)
    ensures var a := HeaderAttributes(NAMES, keyId, created, expires, fields, signature);
      GoodNames(NAMES) && '"' !in LEAD && NamesOf(NAMES, a) && (forall i :: 0 <= i < 5 ==> Quotable(a[i])) &&
          forall i :: 0 <= i < 6 ==> Commaless(a[i])
  {
    NamesAreGood();
    FieldsText(fields);
    AlgorithmText();
    ValuesShape(keyId, created, expires, fields, signature);
    var a := HeaderAttributes(NAMES, keyId, created, expires, fields, signature);
    NamesCleanOf(NAMES, a);
    ShapeFollows(a);
  }

  lemma {:induction false} ShapeFollows(a: seq<Attribute>)
    requires |a| == 6 && CleanSignature(a[5].value) && forall i :: 0 <= i < 6 ==> CleanName(a[i].name)
    requires forall i :: 0 <= i < 5 ==> GoodValue(a[i].value)
    ensures (forall i :: 0 <= i < 5 ==> Quotable(a[i])) && forall i :: 0 <= i < 6 ==> Commaless(a[i])
  {
    forall i | 0 <= i < 6 ensures Commaless(a[i]) && (i < 5 ==> Quotable(a[i])) {
      assert CleanName(a[i].name);
      assert i < 5 ==> GoodValue(a[i].value);
    }
  }

  lemma {:induction false} NumberText(n: int)
    ensures '"' !in FormatInt(n) && ',' !in FormatInt(n) && FormatInt(n)[|FormatInt(n)| - 1] != '='
  {}

  predicate GoodValue(v: string) {
    '"' !in v && ',' !in v && (v == "" || v[|v| - 1] != '=')
  }

  lemma {:induction false} ValuesShape(keyId: string, created: int, expires: int, fields: string, signature: string)
    requires GoodValue(keyId) && GoodValue(fields) && GoodValue(ALGORITHM)
    ensures var a := HeaderAttributes(NAMES, keyId, created, expires, fields, signature);
      NamesOf(NAMES, a) && a[5].value == signature && forall i :: 0 <= i < 5 ==> GoodValue(a[i].value)
  {
    NumberText(created);
    NumberText(expires);
  }

  /** All parsers recover from a request header what was printed into it, IDs trimmed of surrounding spaces;
      the header declares a request signature exactly when one was bound in. */
  lemma {:induction false} RequestHeaderRoundTrip(subID: string, keyID: string, created: int, expires: int,
                                                  signature: string, requestSig: string)
    requires Clean(subID) && Clean(keyID) && IsInt64(created) && IsInt64(expires) && CleanSignature(signature)
    ensures var h := GenerateAuthHeader(subID, keyID, created, expires, signature, requestSig);
      && ParseKeyId(h) == Some(KeyId(TrimSpace(subID), TrimSpace(keyID), ALGORITHM))
      && ParseAuthHeader(h) == Some(Fields(created, expires, signature, TrimSpace(subID)))
      && ExtractSignature(h) == signature
      && (IncludesRequestSig(h) <==> requestSig != "")
  {
    var fields := if requestSig != "" then FOUR_FIELDS else THREE_FIELDS;
    var keyId := KeyIdValue(subID, keyID);
    var a := HeaderAttributes(NAMES, keyId, created, expires, fields, signature);
    KeyIdText(subID, keyID);
    HeaderShape(keyId, created, expires, fields, signature);
    MarkersFind(NAMES, LEAD, a);
    KeyIdRoundTrip(PrintFrom(LEAD, a), subID, keyID);
    HeaderSplits(NAMES, LEAD, a);
    HeaderParses(NAMES, a);
    PartsComeBack(NAMES, Attributes(AttributeTexts(a)), subID, keyID, created, expires, signature);
    FieldsText(fields);
    FieldsDiffer();
  }

  /** The same for a response header. */
  lemma {:induction false} ResponseHeaderRoundTrip(subID: string, keyID: string, created: int, expires: int,
                                                   signature: string)
    requires Clean(subID) && Clean(keyID) && IsInt64(created) && IsInt64(expires) && CleanSignature(signature)
    ensures var h := BuildSignatureHeader(subID, keyID, created, expires, signature);
      && ParseKeyId(h) == Some(KeyId(TrimSpace(subID), TrimSpace(keyID), ALGORITHM))
      && ParseAuthHeader(h) == Some(Fields(created, expires, signature, TrimSpace(subID)))
      && ExtractSignature(h) == signature && IncludesRequestSig(h)
  {
    RequestHeaderRoundTrip(subID, keyID, created, expires, signature, "request");
  }
}
