/** Signing a message on one side and checking its signature on the other, when each side decides by what its own
    payload store holds whether a fourth line binds the original request in.
    step.go: signStep.Run, lookupRequestSignature, lookupCallbackRequestSig, validate. signvalidator.go: Validate,
    ValidateAck.
    responsestep.go: computeSigHeader, validateAckSignatureStep.RunOnResponse. model.go: IsAtLeastV2. */
module CallbackSigning {
  import opened Text
  import opened SigningString
  import opened AuthHeader
  import PayloadStore

  /** Digests and signatures as ideal functions to base64 text. */
  datatype Scheme = Scheme(digest: string -> string, sign: (int, string) -> string)

  /** Base64 text, and no signature of one key that fits two texts. */
  ghost predicate Ideal(s: Scheme) {
    && (forall body :: '\n' !in s.digest(body))
    && (forall key, text :: CleanSignature(s.sign(key, text)))
    && (forall key, text, text' :: s.sign(key, text) == s.sign(key, text') ==> text == text')
  }

  function Quoted(c: char): string {
    if c == '"' then ['!', 'q'] else if c == ',' then ['!', 'c'] else ['=', c]
  }

  function QuotedText(text: string): string {
    if text == "" then ['.'] else Quoted(text[0]) + QuotedText(text[1..])
  }

  lemma {:induction false} QuotedTextDetermines(text: string, text': string)
    ensures CleanSignature(QuotedText(text))
    ensures QuotedText(text) == QuotedText(text') ==> text == text'
    decreases |text|
  {
    var q, q' := QuotedText(text), QuotedText(text');
    if text == "" {
      assert text' != "" ==> q'[0] != '.';
    } else if text' == "" {
      QuotedTextDetermines(text[1..], "");
      assert q[0] != '.';
    } else {
      QuotedTextDetermines(text[1..], text'[1..]);
      assert text == [text[0]] + text[1..] && text' == [text'[0]] + text'[1..];
      assert q[..2] == Quoted(text[0]) && q'[..2] == Quoted(text'[0]);
      assert q[2..] == QuotedText(text[1..]) && q'[2..] == QuotedText(text'[1..]);
      assert q == q' ==> Quoted(text[0])[0] == Quoted(text'[0])[0] && Quoted(text[0])[1] == Quoted(text'[0])[1];
    }
  }

  /** There are such schemes. */
  lemma {:induction false} IdealExists() returns (s: Scheme)
    ensures Ideal(s)
  {
    s := Scheme(body => "", (key, text) => QuotedText(text));
    forall key, text, text' ensures CleanSignature(s.sign(key, text)) &&
        (s.sign(key, text) == s.sign(key, text') ==> text == text') {
      QuotedTextDetermines(text, text');
    }
  }

  /** A payload store as a participant sees it: a run of stores, and whether its lookups fail at the moment. */
  datatype Store = Store(cfg: PayloadStore.Config, ns: string, log: seq<PayloadStore.Event>, fails: bool)

  datatype Lookup = Failed | Absent | Present(signature: string)

  function LookUp(s: Store, messageID: string, action: string, now: int): Lookup {
    if s.fails then Failed
    else
      var entry := PayloadStore.ByMessage(PayloadStore.Run(s.cfg, s.ns, s.log), s.ns, messageID, action, now);
      if entry.None? then Absent else Present(entry.value.signature)
  }

  const ON := "on_"

  /** A request or callback: what both sides read from it. */
  datatype Call = Call(body: string, action: string, messageID: string)

  // ----- The signing side -----

  datatype Signer = Signer(subID: string, keyID: string, key: int, store: Option<Store>)

  /** `lookupRequestSignature`: the stored header of the request a callback answers; empty whenever there is none to be
      had. */
  function RequestSignature(s: Signer, call: Call, now: int): string {
    if s.store.None? || !HasPrefix(call.action, ON) then ""
    else
      match LookUp(s.store.value, call.messageID, TrimPrefix(call.action, ON), now)
      case Present(signature) => signature
      case _ => ""
  }

  /** The Authorization header `signStep` sets. */
  function SignedHeader(scheme: Scheme, s: Signer, call: Call, created: int, expires: int, now: int): string {
    var requestSig := RequestSignature(s, call, now);
    var signature := scheme.sign(s.key, SignerString(scheme.digest(call.body), created, expires, requestSig));
    GenerateAuthHeader(s.subID, s.keyID, created, expires, signature, requestSig)
  }

  // ----- The checking side -----

  /** `directory` is the registry's answer for a subscriber and key ID, `expected` the caller identity the request
      declares. */
  datatype Verifier = Verifier(store: Option<Store>, tolerance: int, version: string, expected: string,
                               directory: (string, string) -> Option<int>)

  predicate IsAtLeastV2(version: string) {
    version != "" && var major := ParseInt(Split(version, '.')[0]); major.Parsed? && major.value >= 2
  }

  /** `lookupCallbackRequestSig`: the request signature to check against, empty for three lines; None refuses the
      call. */
  function ExpectedSignature(v: Verifier, header: string, call: Call, now: int): Option<string> {
    if v.store.None? || !IsAtLeastV2(v.version) || !IncludesRequestSig(header) then Some("")
    else
      var action := TrimPrefix(call.action, ON);
      if action == "" then Some("")
      else
        match LookUp(v.store.value, call.messageID, action, now)
        case Present(signature) => Some(signature)
        case _ => None
  }

  /** The text that Validate or ValidateAck rebuilds. */
  function CheckedText(digest: string, fields: Fields, requestSig: string): string {
    if requestSig != "" then ValidatorHashAck(digest, fields.created, fields.expires, requestSig)
    else ValidatorHash(digest, fields.created, fields.expires)
  }

  /** `validate`, with the Validate or ValidateAck it chooses. */
  predicate Verifies(scheme: Scheme, v: Verifier, header: string, body: string, requestSig: string, now: int,
                     checkIdentity: bool) {
    var keyId := ParseKeyId(header);
    keyId.Some? && keyId.value.algorithm == ALGORITHM &&
    var key, fields := v.directory(keyId.value.subscriberID, keyId.value.uniqueID), ParseAuthHeader(header);
    key.Some? && fields.Some? && InWindow(fields.value.created, fields.value.expires, now, v.tolerance) &&
    fields.value.signature == scheme.sign(key.value, CheckedText(scheme.digest(body), fields.value, requestSig)) &&
    (checkIdentity ==> v.expected == "" || fields.value.subscriberID == v.expected)
  }

  /** The whole check of a call's Authorization header. */
  predicate Accepts(scheme: Scheme, v: Verifier, header: string, call: Call, now: int) {
    var requestSig := ExpectedSignature(v, header, call, now);
    header != "" && requestSig.Some? && Verifies(scheme, v, header, call.body, requestSig.value, now, true)
  }

  // ----- Agreement -----

  /** The checking side knows the signer by its key and by the identity the call declares. */
  predicate Knows(v: Verifier, s: Signer) {
    && v.directory(TrimSpace(s.subID), TrimSpace(s.keyID)) == Some(s.key)
    && (v.expected == "" || v.expected == TrimSpace(s.subID))
  }

  /** What `signStep` can print: a subscriber ID is set, and the IDs and times fit the header. */
  predicate Sendable(s: Signer, created: int, expires: int) {
    s.subID != "" && Clean(s.subID) && Clean(s.keyID) && IsInt64(created) && IsInt64(expires)
  }

  /** A signature made over one body and request signature checks, inside its window, against exactly that digest and
      that request signature. */
  lemma {:induction false} ChecksAsSigned(scheme: Scheme, s: Signer, v: Verifier, body: string, created: int,
                                          expires: int, requestSig: string, declared: string, body': string,
                                          requestSig': string, now: int, checkIdentity: bool)
    requires Ideal(scheme) && Sendable(s, created, expires) && Knows(v, s) &&
      InWindow(created, expires, now, v.tolerance)
    ensures var signature := scheme.sign(s.key, SignerString(scheme.digest(body), created, expires, requestSig));
      var header := GenerateAuthHeader(s.subID, s.keyID, created, expires, signature, declared);
      Verifies(scheme, v, header, body', requestSig', now, checkIdentity) <==>
      scheme.digest(body) == scheme.digest(body') && requestSig == requestSig'
  {
    var text := SignerString(scheme.digest(body), created, expires, requestSig);
    var text' := ValidatorHashAck(scheme.digest(body'), created, expires, requestSig');
    RequestHeaderRoundTrip(s.subID, s.keyID, created, expires, scheme.sign(s.key, text), declared);
    if text == text' {
      StringDetermines(scheme.digest(body), created, expires, requestSig, scheme.digest(body'), created, expires,
                       requestSig');
    } else {
      BothSidesAgree(scheme.digest(body), created, expires, requestSig);
    }
  }

  /** The header a participant's store holds for a message and action at a time, by the log of what was stored: that of
      the last store of the message, while it lives, if the action matches and headers are kept. */
  function LiveHeader(s: Option<Store>, messageID: string, action: string, now: int): string {
    if s.None? || s.value.fails then ""
    else
      var last := PayloadStore.LastStore(s.value.log, messageID);
      if last.Some? && now < last.value.at + s.value.cfg.ttl && (action == "" || last.value.entry.action == action)
         && s.value.cfg.storeSignature
      then last.value.entry.signature else ""
  }

  lemma {:induction false} LookUpReadsLog(s: Store, messageID: string, action: string, now: int)
    ensures var found := LookUp(s, messageID, action, now);
      LiveHeader(Some(s), messageID, action, now) == if found.Present? then found.signature else ""
  {
    PayloadStore.ByMessageIsLastStore(s.cfg, s.ns, s.log, messageID, action, now);
  }

  /** What the signer binds in: nothing but to a callback, and then the header its log says is live. */
  lemma {:induction false} SignerReadsLog(s: Signer, call: Call, now: int)
    ensures RequestSignature(s, call, now) ==
            if HasPrefix(call.action, ON) then LiveHeader(s.store, call.messageID, TrimPrefix(call.action, ON), now)
            else ""
  {
    if s.store.Some? {
      LookUpReadsLog(s.store.value, call.messageID, TrimPrefix(call.action, ON), now);
    }
  }

  /** What the checking side checks against: no request signature where the header declares none, and otherwise a given
      one exactly when it speaks version 2 and its log says that one is live. */
  lemma {:induction false} VerifierReadsLog(v: Verifier, header: string, call: Call, now: int, bound: string)
    ensures !IncludesRequestSig(header) ==> ExpectedSignature(v, header, call, now) == Some("")
    ensures var action := TrimPrefix(call.action, ON);
      bound != "" && IncludesRequestSig(header) ==>
      (ExpectedSignature(v, header, call, now) == Some(bound) <==>
       IsAtLeastV2(v.version) && action != "" && LiveHeader(v.store, call.messageID, action, now) == bound)
  {
    if v.store.Some? {
      LookUpReadsLog(v.store.value, call.messageID, TrimPrefix(call.action, ON), now);
    }
  }

  /** A call signed with a request signature is accepted exactly when the checking side expects the same. */
  lemma {:induction false} AcceptedWhenExpected(scheme: Scheme, s: Signer, v: Verifier, call: Call,
                                                created: int, expires: int, requestSig: string, now: int)
    requires Ideal(scheme) && Sendable(s, created, expires) && Knows(v, s) &&
      InWindow(created, expires, now, v.tolerance)
    ensures var signature := scheme.sign(s.key, SignerString(scheme.digest(call.body), created, expires, requestSig));
      var header := GenerateAuthHeader(s.subID, s.keyID, created, expires, signature, requestSig);
      && (IncludesRequestSig(header) <==> requestSig != "")
      && (Accepts(scheme, v, header, call, now) <==> ExpectedSignature(v, header, call, now) == Some(requestSig))
  {
    var signature := scheme.sign(s.key, SignerString(scheme.digest(call.body), created, expires, requestSig));
    var header := GenerateAuthHeader(s.subID, s.keyID, created, expires, signature, requestSig);
    RequestHeaderRoundTrip(s.subID, s.keyID, created, expires, signature, requestSig);
    HeaderNotEmpty(header);
    var expected := ExpectedSignature(v, header, call, now);
    if expected.Some? {
      ChecksAsSigned(scheme, s, v, call.body, created, expires, requestSig, requestSig, call.body, expected.value, now,
                     true);
    }
  }

  lemma {:induction false} HeaderNotEmpty(header: string)
    requires ParseKeyId(header).Some?
    ensures header != ""
  {}

  /** Over any two runs of stores: an unmodified call inside its window is accepted exactly when the signer had no live
      header for the request (both sides then sign three lines), or the checking side speaks version 2, keeps a store,
      and its live header for the same message and action is the same (both then sign four lines). */
  lemma {:induction false} CallbackAcceptedIff(scheme: Scheme, s: Signer, v: Verifier, call: Call,
                                               created: int, expires: int, signedAt: int, now: int)
    requires Ideal(scheme) && Sendable(s, created, expires) && Knows(v, s) &&
      InWindow(created, expires, now, v.tolerance)
    ensures var action := TrimPrefix(call.action, ON);
      var bound := LiveHeader(s.store, call.messageID, action, signedAt);
      Accepts(scheme, v, SignedHeader(scheme, s, call, created, expires, signedAt), call, now) <==>
      !HasPrefix(call.action, ON) || bound == "" ||
      (IsAtLeastV2(v.version) && action != "" && LiveHeader(v.store, call.messageID, action, now) == bound)
  {
    var requestSig := RequestSignature(s, call, signedAt);
    SignerReadsLog(s, call, signedAt);
    AcceptedWhenExpected(scheme, s, v, call, created, expires, requestSig, now);
    VerifierReadsLog(v, SignedHeader(scheme, s, call, created, expires, signedAt), call, now, requestSig);
  }

  /** One request `ask` was stored with its header on both sides, and no message with its ID since. Its callback is
      accepted from a version 2 exchange exactly when the signer's copy had expired on signing or the other copy is
      still live. */
  lemma {:induction false} CallbackAcceptedWhileBothHold(scheme: Scheme, s: Signer, v: Verifier, call: Call,
                                                         ask: PayloadStore.Entry, created: int, expires: int,
                                                         signedAt: int, now: int, at: int, at': int)
    requires Ideal(scheme) && Sendable(s, created, expires) && Knows(v, s) &&
      InWindow(created, expires, now, v.tolerance)
    requires IsAtLeastV2(v.version) && HasPrefix(call.action, ON) && ask.action != "" &&
      TrimPrefix(call.action, ON) == ask.action
    requires ask.signature != "" && Holds(s.store, call.messageID, ask, at) && Holds(v.store, call.messageID, ask, at')
    ensures Accepts(scheme, v, SignedHeader(scheme, s, call, created, expires, signedAt), call, now) <==>
            at + s.store.value.cfg.ttl <= signedAt || now < at' + v.store.value.cfg.ttl
  {
    CallbackAcceptedIff(scheme, s, v, call, created, expires, signedAt, now);
  }

  predicate Holds(s: Option<Store>, messageID: string, ask: PayloadStore.Entry, at: int) {
    && s.Some? && !s.value.fails && s.value.cfg.storeSignature
    && PayloadStore.LastStore(s.value.log, messageID) == Some(PayloadStore.Event(ask, at))
  }

  /** Storing the callback itself, under its own action, hides the header of the request it answers. */
  lemma {:induction false} StoredCallbackHidesRequest(s: Store, callback: PayloadStore.Event, action: string, now: int)
    requires action != "" && callback.entry.action != action
    ensures LiveHeader(Some(s.(log := s.log + [callback])), callback.entry.messageID, action, now) == ""
  {
    var log := s.log + [callback];
    assert log[|log| - 1] == callback;
  }

  /** Which versions speak version 2: for a plain number and for one with anything after a dot, those from 2 on. */
  lemma {:induction false} AtLeastV2Iff(n: int, rest: string)
    requires IsInt64(n)
    ensures IsAtLeastV2(FormatInt(n)) <==> n >= 2
    ensures IsAtLeastV2(FormatInt(n) + "." + rest) <==> n >= 2
  {
    var major := FormatInt(n);
    ParseFormat(n);
    SplitWhole(major, '.');
    SplitConcat(major, rest, '.');
    assert major + "." + rest == major + ['.'] + rest;
  }

  lemma {:induction false} NoNumberIsNoV2(version: string)
    requires version == "" || !(IsDigit(version[0]) || version[0] == '+' || version[0] == '-')
    ensures !IsAtLeastV2(version)
  {
    if version != "" && version[0] != '.' {
      var rest := Split(version[1..], '.');
      assert Split(version, '.')[0] == [version[0]] + rest[0];
    }
  }

  /** A participant that signed a callback and one that checks it at once, both holding the request it answers. */
  ghost predicate BothHold(scheme: Scheme, s: Signer, v: Verifier, call: Call, ask: PayloadStore.Entry) {
    && Ideal(scheme) && Sendable(s, 0, 0) && Knows(v, s) && InWindow(0, 0, 0, v.tolerance)
    && HasPrefix(call.action, ON) && ask.action != "" && TrimPrefix(call.action, ON) == ask.action
    && ask.signature != "" && Holds(s.store, call.messageID, ask, 0) && s.store == v.store
    && s.store.value.cfg.Valid()
  }

  lemma {:induction false} CallbackAt(version: string)
    returns (scheme: Scheme, s: Signer, v: Verifier, call: Call, ask: PayloadStore.Entry)
    ensures BothHold(scheme, s, v, call, ask) && v.version == version
    ensures Accepts(scheme, v, SignedHeader(scheme, s, call, 0, 0, 0), call, 0) <==> IsAtLeastV2(version)
  {
    scheme := IdealExists();
    ask := PayloadStore.Entry("m", "", "a", "", "h", 0, 0);
    var log := [PayloadStore.Event(ask, 0)];
    var store := Some(Store(PayloadStore.Config(1, 1, 0, true, true), "n", log, false));
    s := Signer("s", "k", 0, store);
    v := Verifier(store, 0, version, "", (_, _) => Some(0));
    call := Call("", "on_a", "m");
    assert ON + "a" == "on_a";
    assert log[|log| - 1] == PayloadStore.Event(ask, 0);
    CallbackAcceptedIff(scheme, s, v, call, 0, 0, 0, 0);
  }

  /** It happens: such a callback is refused below version 2. */
  lemma {:induction false} RefusedBelowV2() returns (scheme: Scheme, s: Signer, v: Verifier, call: Call,
                                                     ask: PayloadStore.Entry)
    ensures BothHold(scheme, s, v, call, ask) && v.version == "1.1.0" && !IsAtLeastV2(v.version)
    ensures !Accepts(scheme, v, SignedHeader(scheme, s, call, 0, 0, 0), call, 0)
  {
    AtLeastV2Iff(1, "1.0");
    assert FormatInt(1) + "." + "1.0" == "1.1.0";
    scheme, s, v, call, ask := CallbackAt("1.1.0");
  }

  /** And so it does that it is accepted at version 2. */
  lemma {:induction false} AcceptedAtV2() returns (scheme: Scheme, s: Signer, v: Verifier, call: Call,
                                                   ask: PayloadStore.Entry)
    ensures BothHold(scheme, s, v, call, ask) && v.version == "2.0.0"
    ensures Accepts(scheme, v, SignedHeader(scheme, s, call, 0, 0, 0), call, 0)
  {
    AtLeastV2Iff(2, "0.0");
    assert FormatInt(2) + "." + "0.0" == "2.0.0";
    scheme, s, v, call, ask := CallbackAt("2.0.0");
  }

  // ----- Any header at all -----

  /** The key that the checking side finds for a header. */
  function KeyOf(v: Verifier, header: string): Option<int> {
    var keyId := ParseKeyId(header);
    if keyId.None? then None else v.directory(keyId.value.subscriberID, keyId.value.uniqueID)
  }

  /** All that is checked of a header but its signature. */
  predicate Presentable(v: Verifier, header: string, now: int) {
    var keyId, fields := ParseKeyId(header), ParseAuthHeader(header);
    && header != "" && keyId.Some? && keyId.value.algorithm == ALGORITHM && KeyOf(v, header).Some?
    && fields.Some? && InWindow(fields.value.created, fields.value.expires, now, v.tolerance)
    && (v.expected == "" || fields.value.subscriberID == v.expected)
  }

  /** The header carries this signature, of the key found for it. */
  predicate Carries(v: Verifier, header: string, key: int, signature: string) {
    var fields := ParseAuthHeader(header);
    KeyOf(v, header) == Some(key) && fields.Some? && fields.value.signature == signature
  }

  /** What a known signer sends carries its signature, of its key. */
  lemma {:induction false} SentCarries(scheme: Scheme, s: Signer, v: Verifier, call: Call, created: int, expires: int,
                                       signedAt: int)
    requires Ideal(scheme) && Sendable(s, created, expires) && Knows(v, s)
    ensures var r := RequestSignature(s, call, signedAt);
      Carries(v, SignedHeader(scheme, s, call, created, expires, signedAt), s.key,
              scheme.sign(s.key, SignerString(scheme.digest(call.body), created, expires, r)))
  {
    var r := RequestSignature(s, call, signedAt);
    var text := SignerString(scheme.digest(call.body), created, expires, r);
    RequestHeaderRoundTrip(s.subID, s.keyID, created, expires, scheme.sign(s.key, text), r);
  }

  /** A header, whoever made it, that carries a signature of a digest, two times and a request signature is accepted
      exactly for those: its printed times are the signed ones, the body has the signed digest, and the request
      signature expected is the signed one. What its unsigned attributes say does not matter otherwise. */
  lemma {:induction false} AnyHeaderAcceptedIff(scheme: Scheme, v: Verifier, header: string, call: Call, now: int,
                                                key: int, d: string, c: int, e: int, r: string)
    requires Ideal(scheme) && '\n' !in d && IsInt64(c) && IsInt64(e)
    requires Carries(v, header, key, scheme.sign(key, SignerString(d, c, e, r)))
    ensures Accepts(scheme, v, header, call, now) <==>
      && Presentable(v, header, now)
      && ParseAuthHeader(header).value.created == c && ParseAuthHeader(header).value.expires == e
      && scheme.digest(call.body) == d && ExpectedSignature(v, header, call, now) == Some(r)
  {
    var fields, expected := ParseAuthHeader(header).value, ExpectedSignature(v, header, call, now);
    if expected.Some? {
      TextFits(scheme.digest(call.body), fields, expected.value, d, c, e, r);
    }
  }

  /** The text that is checked is the signed one exactly when all its parts are. */
  lemma {:induction false} TextFits(digest: string, fields: Fields, requestSig: string, d: string, c: int, e: int,
                                    r: string)
    requires '\n' !in d && '\n' !in digest && IsInt64(c) && IsInt64(e)
    requires IsInt64(fields.created) && IsInt64(fields.expires)
    ensures SignerString(d, c, e, r) == CheckedText(digest, fields, requestSig) <==>
      d == digest && c == fields.created && e == fields.expires && r == requestSig
  {
    BothSidesAgree(digest, fields.created, fields.expires, requestSig);
    if SignerString(d, c, e, r) == CheckedText(digest, fields, requestSig) {
      StringDetermines(d, c, e, r, digest, fields.created, fields.expires, requestSig);
    }
  }

  /** One signature of one key is accepted for one message only, whatever headers carry it and whatever they declare:
      the same times, body digest and expected request signature. */
  lemma {:induction false} SignatureFitsOne(scheme: Scheme, v: Verifier, header: string, call: Call, now: int,
                                            v': Verifier, header': string, call': Call, now': int, key: int)
    requires Ideal(scheme) && Accepts(scheme, v, header, call, now) && Accepts(scheme, v', header', call', now')
    requires Carries(v, header, key, ParseAuthHeader(header').value.signature) && KeyOf(v', header') == Some(key)
    ensures var fields, fields' := ParseAuthHeader(header).value, ParseAuthHeader(header').value;
      && fields.created == fields'.created && fields.expires == fields'.expires
      && scheme.digest(call.body) == scheme.digest(call'.body)
      && ExpectedSignature(v, header, call, now) == ExpectedSignature(v', header', call', now')
  {
    var fields', r' := ParseAuthHeader(header').value, ExpectedSignature(v', header', call', now').value;
    var d' := scheme.digest(call'.body);
    BothSidesAgree(d', fields'.created, fields'.expires, r');
    AnyHeaderAcceptedIff(scheme, v, header, call, now, key, d', fields'.created, fields'.expires, r');
  }

  // ----- Synchronous responses -----

  /** `computeSigHeader`: the response is bound to the signature in the request's header as received. */
  function ResponseHeader(scheme: Scheme, s: Signer, body: string, requestHeader: string, created: int,
                          expires: int): string {
    var text := SignerString(scheme.digest(body), created, expires, ExtractSignature(requestHeader));
    BuildSignatureHeader(s.subID, s.keyID, created, expires, scheme.sign(s.key, text))
  }

  /** The caller's check, against the signature in the header it sent. */
  predicate ResponseVerifies(scheme: Scheme, v: Verifier, header: string, body: string, requestHeader: string,
                             now: int) {
    Verifies(scheme, v, header, body, ExtractSignature(requestHeader), now, false)
  }

  /** A response verifies against exactly the request it was made for: the same body digest, and a request of the same
      signature. */
  lemma {:induction false} ResponseBoundToRequest(scheme: Scheme, s: Signer, v: Verifier, body: string, body': string,
                                                  created: int, expires: int, now: int, caller: Signer, call: Call,
                                                  call': Call, sentAt: int, until: int, readAt: int, sentAt': int,
                                                  until': int, readAt': int)
    requires Ideal(scheme) && Sendable(s, created, expires) && Knows(v, s) &&
      InWindow(created, expires, now, v.tolerance)
    requires Sendable(caller, sentAt, until) && Sendable(caller, sentAt', until')
    ensures var sent := SignedHeader(scheme, caller, call, sentAt, until, readAt);
      var sent' := SignedHeader(scheme, caller, call', sentAt', until', readAt');
      ResponseVerifies(scheme, v, ResponseHeader(scheme, s, body, sent, created, expires), body', sent', now) <==>
      && scheme.digest(body) == scheme.digest(body')
      && scheme.digest(call.body) == scheme.digest(call'.body) && sentAt == sentAt' && until == until'
      && RequestSignature(caller, call, readAt) == RequestSignature(caller, call', readAt')
  {
    var sent := SignedHeader(scheme, caller, call, sentAt, until, readAt);
    var sent' := SignedHeader(scheme, caller, call', sentAt', until', readAt');
    ChecksAsSigned(scheme, s, v, body, created, expires, ExtractSignature(sent), "request", body',
                   ExtractSignature(sent'), now, false);
    SentSignature(scheme, caller, call, sentAt, until, readAt);
    SentSignature(scheme, caller, call', sentAt', until', readAt');
    var r, r' := RequestSignature(caller, call, readAt), RequestSignature(caller, call', readAt');
    var text := SignerString(scheme.digest(call.body), sentAt, until, r);
    var text' := SignerString(scheme.digest(call'.body), sentAt', until', r');
    if text == text' {
      BothSidesAgree(scheme.digest(call'.body), sentAt', until', r');
      StringDetermines(scheme.digest(call.body), sentAt, until, r, scheme.digest(call'.body), sentAt', until', r');
    }
  }

  lemma {:induction false} SentSignature(scheme: Scheme, caller: Signer, call: Call, sentAt: int, until: int,
                                         readAt: int)
    requires Ideal(scheme) && Sendable(caller, sentAt, until)
    ensures ExtractSignature(SignedHeader(scheme, caller, call, sentAt, until, readAt)) ==
            scheme.sign(caller.key, SignerString(scheme.digest(call.body), sentAt, until,
                                                 RequestSignature(caller, call, readAt)))
  {
    var r := RequestSignature(caller, call, readAt);
    var signature := scheme.sign(caller.key, SignerString(scheme.digest(call.body), sentAt, until, r));
    RequestHeaderRoundTrip(caller.subID, caller.keyID, sentAt, until, signature, r);
  }
}
