/** The payload store over a cache with expiry: one entry per message, one index per transaction.
    payloadstore.go: persist, appendToIndex, GetByTransactionID, GetByMessageID, msgKey, txnIndexKey, ParseConfig. */
module PayloadStore {
  import opened Text

  datatype Config = Config(ttl: int, indexTTL: int, maxBodyBytes: int, storeBody: bool, storeSignature: bool)
  {
    /** What `ParseConfig` accepts. */
    predicate Valid() {
      ttl > 0 && indexTTL >= ttl && maxBodyBytes >= 0
    }
  }

  datatype Entry = Entry(messageID: string, transactionID: string, action: string, requestBody: string,
                         signature: string, storedAt: int, expiresAt: int)

  /** What a cache slot holds. Serialising is taken as exact. */
  datatype Cell = Message(entry: Entry) | Index(ids: seq<string>)

  datatype Slot = Slot(cell: Cell, expires: int)

  /** One store, at a time. */
  datatype Event = Event(entry: Entry, at: int)

  type Cache = map<string, Slot>

  function Get(c: Cache, key: string, now: int): Option<Cell> {
    if key in c && now < c[key].expires then Some(c[key].cell) else None
  }

  // ----- Keys -----

  function MsgKey(ns: string, messageID: string): string {
    "payload:" + ns + (":msg:" + messageID)
  }

  function TxnIndexKey(ns: string, transactionID: string): string {
    "payload:" + ns + (":txn:" + (transactionID + ":index"))
  }

  lemma {:induction false} SameTail(p: string, a: string, b: string)
    ensures p + a == p + b ==> a == b
    ensures a + p == b + p ==> a == b
  {
    assert (p + a)[|p|..] == a && (p + b)[|p|..] == b;
    assert (a + p)[..|a + p| - |p|] == a && (b + p)[..|b + p| - |p|] == b;
  }

  /** Keys of different messages, of different transactions, and of a message and a transaction are different. */
  lemma {:induction false} KeysDiffer(ns: string, a: string, b: string)
    ensures MsgKey(ns, a) == MsgKey(ns, b) ==> a == b
    ensures TxnIndexKey(ns, a) == TxnIndexKey(ns, b) ==> a == b
    ensures MsgKey(ns, a) != TxnIndexKey(ns, b)
  {
    var p, msg, txn := "payload:" + ns, ":msg:", ":txn:";
    SameTail(p, msg + a, msg + b);
    SameTail(msg, a, b);
    SameTail(p, txn + (a + ":index"), txn + (b + ":index"));
    SameTail(txn, a + ":index", b + ":index");
    SameTail(":index", a, b);
    SameTail(p, msg + a, txn + (b + ":index"));
    assert (msg + a)[1] == 'm' && (txn + (b + ":index"))[1] == 't';
  }

  // ----- Storing -----

  /** The entry as the configured policies record it at time `now`. */
  function Recorded(cfg: Config, e: Entry, now: int): Entry {
    var body := if cfg.storeBody then e.requestBody else "";
    var kept := if cfg.maxBodyBytes > 0 && |body| > cfg.maxBodyBytes then body[..cfg.maxBodyBytes] else body;
    e.(requestBody := kept, signature := if cfg.storeSignature then e.signature else "",
       storedAt := now, expiresAt := now + cfg.ttl)
  }

  function IndexIds(c: Cache, key: string, now: int): seq<string> {
    match Get(c, key, now)
    case Some(Index(ids)) => ids
    case _ => []
  }

  function Appended(c: Cache, cfg: Config, ns: string, txn: string, id: string, now: int): Cache {
    var key := TxnIndexKey(ns, txn);
    var ids := IndexIds(c, key, now);
    if id in ids then c else c[key := Slot(Index(ids + [id]), now + cfg.indexTTL)]
  }

  function AfterMessage(c: Cache, cfg: Config, ns: string, ev: Event): Cache {
    c[MsgKey(ns, ev.entry.messageID) := Slot(Message(Recorded(cfg, ev.entry, ev.at)), ev.at + cfg.ttl)]
  }

  function Persisted(c: Cache, cfg: Config, ns: string, e: Entry, now: int): Cache {
    var c' := AfterMessage(c, cfg, ns, Event(e, now));
    if e.transactionID == "" then c' else Appended(c', cfg, ns, e.transactionID, e.messageID, now)
  }

  // ----- Reading -----

  function Fetch(c: Cache, ns: string, id: string, now: int): Option<Entry> {
    match Get(c, MsgKey(ns, id), now)
    case Some(Message(entry)) => Some(entry)
    case _ => None
  }

  /** The live entries of the listed messages, in list order. */
  function Collect(c: Cache, ns: string, ids: seq<string>, now: int): seq<Entry> {
    if ids == [] then []
    else
      var front, last := Collect(c, ns, ids[..|ids| - 1], now), Fetch(c, ns, ids[|ids| - 1], now);
      if last.Some? then front + [last.value] else front
  }

  function ByTransaction(c: Cache, ns: string, txn: string, now: int): seq<Entry> {
    Collect(c, ns, IndexIds(c, TxnIndexKey(ns, txn), now), now)
  }

  /** `GetByMessageID`: the entry of a message, if the action matches; an empty action matches any. */
  function ByMessage(c: Cache, ns: string, id: string, action: string, now: int): Option<Entry> {
    var entry := Fetch(c, ns, id, now);
    if entry.Some? && action != "" && entry.value.action != action then None else entry
  }

  // ----- The log -----

  function Run(cfg: Config, ns: string, log: seq<Event>): Cache {
    if log == [] then map[]
    else
      var last := log[|log| - 1];
      Persisted(Run(cfg, ns, log[..|log| - 1]), cfg, ns, last.entry, last.at)
  }

  ghost predicate InOrder(log: seq<Event>) {
    forall i, j :: 0 <= i < j < |log| ==> log[i].at <= log[j].at
  }

  ghost predicate DistinctIds(log: seq<Event>) {
    forall i, j :: 0 <= i < j < |log| ==> log[i].entry.messageID != log[j].entry.messageID
  }

  /** The last store of a message. */
  function LastStore(log: seq<Event>, id: string): Option<Event> {
    if log == [] then None
    else if log[|log| - 1].entry.messageID == id then Some(log[|log| - 1])
    else LastStore(log[..|log| - 1], id)
  }

  /** The stores under a transaction, in store order. */
  function OfTransaction(log: seq<Event>, txn: string): seq<Event> {
    if log == [] then []
    else
      var front, last := OfTransaction(log[..|log| - 1], txn), log[|log| - 1];
      if last.entry.transactionID == txn then front + [last] else front
  }

  /** What was recorded by those stores whose entry is not older than the entry TTL, in store order. */
  function LiveEntries(cfg: Config, events: seq<Event>, now: int): seq<Entry> {
    if events == [] then []
    else
      var front, last := LiveEntries(cfg, events[..|events| - 1], now), events[|events| - 1];
      if now < last.at + cfg.ttl then front + [Recorded(cfg, last.entry, last.at)] else front
  }

  function Ids(events: seq<Event>): (ids: seq<string>)
    ensures |ids| == |events| && forall i :: 0 <= i < |events| ==> ids[i] == events[i].entry.messageID
  {
    seq(|events|, i requires 0 <= i < |events| => events[i].entry.messageID)
  }

  /** After any run, the slot of a message holds what its last store recorded, for the entry TTL. */
  lemma {:induction false} MessageSlot(cfg: Config, ns: string, log: seq<Event>, id: string)
    ensures var c, key, last := Run(cfg, ns, log), MsgKey(ns, id), LastStore(log, id);
      && (key in c <==> last.Some?)
      && (last.Some? ==>
          c[key] == Slot(Message(Recorded(cfg, last.value.entry, last.value.at)), last.value.at + cfg.ttl))
  {
    if log != [] {
      var last := log[|log| - 1];
      MessageSlot(cfg, ns, log[..|log| - 1], id);
      KeysDiffer(ns, id, last.entry.messageID);
      KeysDiffer(ns, id, last.entry.transactionID);
    }
  }

  /** A message is found by its ID exactly while its last store is not older than the TTL and the action asked for
      matches. */
  lemma {:induction false} ByMessageIsLastStore(cfg: Config, ns: string, log: seq<Event>, id: string, action: string,
                                                now: int)
    ensures var last := LastStore(log, id);
      ByMessage(Run(cfg, ns, log), ns, id, action, now) ==
        if last.Some? && now < last.value.at + cfg.ttl && (action == "" || last.value.entry.action == action)
        then Some(Recorded(cfg, last.value.entry, last.value.at)) else None
  {
    MessageSlot(cfg, ns, log, id);
  }

  /** What a stored entry comes back as: the same message, with as much of the body and with the header as the
      configuration keeps, from the time it was stored and to its expiry. */
  predicate Keeps(cfg: Config, e: Entry, at: int, kept: Entry) {
    && kept.messageID == e.messageID && kept.transactionID == e.transactionID && kept.action == e.action
    && kept.requestBody <= e.requestBody
    && |kept.requestBody| == (if !cfg.storeBody then 0
                              else if 0 < cfg.maxBodyBytes < |e.requestBody| then cfg.maxBodyBytes else |e.requestBody|)
    && kept.signature == (if cfg.storeSignature then e.signature else "")
    && kept.storedAt == at && kept.expiresAt == at + cfg.ttl
  }

  lemma {:induction false} RecordedKeeps(cfg: Config, e: Entry, at: int)
    ensures Keeps(cfg, e, at, Recorded(cfg, e, at))
  {}

  /** Whatever a lookup by message returns was kept from the last store of that message, and is not past its expiry. */
  lemma {:induction false} ReturnedWasKept(cfg: Config, ns: string, log: seq<Event>, id: string, action: string,
                                           now: int)
    ensures var found, last := ByMessage(Run(cfg, ns, log), ns, id, action, now), LastStore(log, id);
      found.Some? ==>
        && last.Some? && last.value in log && Keeps(cfg, last.value.entry, last.value.at, found.value)
        && found.value.messageID == id && now < found.value.expiresAt
        && (action == "" || found.value.action == action)
  {
    ByMessageIsLastStore(cfg, ns, log, id, action, now);
    LastStoreIsLogged(log, id);
  }

  lemma {:induction false} LastStoreIsLogged(log: seq<Event>, id: string)
    ensures var last := LastStore(log, id); last.Some? ==> last.value in log && last.value.entry.messageID == id
  {
    if log != [] {
      LastStoreIsLogged(log[..|log| - 1], id);
    }
  }

  ghost predicate KeptFromLog(cfg: Config, log: seq<Event>, now: int, kept: Entry) {
    now < kept.expiresAt && exists ev :: ev in log && Keeps(cfg, ev.entry, ev.at, kept)
  }

  lemma {:induction false} CollectedWereKept(cfg: Config, ns: string, log: seq<Event>, ids: seq<string>, now: int)
    ensures forall e :: e in Collect(Run(cfg, ns, log), ns, ids, now) ==> KeptFromLog(cfg, log, now, e)
    decreases |ids|
  {
    if ids != [] {
      var id := ids[|ids| - 1];
      CollectedWereKept(cfg, ns, log, ids[..|ids| - 1], now);
      ReturnedWasKept(cfg, ns, log, id, "", now);
      assert ByMessage(Run(cfg, ns, log), ns, id, "", now) == Fetch(Run(cfg, ns, log), ns, id, now);
    }
  }

  /** And so does whatever a lookup by transaction returns come from some store, whatever was stored before and after
      it. */
  lemma {:induction false} ListedWereKept(cfg: Config, ns: string, log: seq<Event>, txn: string, now: int)
    ensures forall e :: e in ByTransaction(Run(cfg, ns, log), ns, txn, now) ==> KeptFromLog(cfg, log, now, e)
  {
    CollectedWereKept(cfg, ns, log, IndexIds(Run(cfg, ns, log), TxnIndexKey(ns, txn), now), now);
  }

  /** After a run with distinct IDs, the index slot of a transaction lists its stores from some point on; the stores
      before that point had outlived the entry TTL when the last one came, and the slot lives for the index TTL after
      the last one. */
  ghost predicate IndexSlot(c: Cache, cfg: Config, ns: string, events: seq<Event>, txn: string, from: nat) {
    var key := TxnIndexKey(ns, txn);
    if events == [] then key !in c
    else
      var last := events[|events| - 1];
      && from < |events| && key in c && c[key] == Slot(Index(Ids(events[from..])), last.at + cfg.indexTTL)
      && forall i :: 0 <= i < from ==> events[i].at + cfg.ttl <= last.at
  }

  lemma {:induction false} TransactionEvents(log: seq<Event>, txn: string, ev: Event)
    ensures ev in OfTransaction(log, txn) <==> ev in log && ev.entry.transactionID == txn
  {
    if log != [] {
      TransactionEvents(log[..|log| - 1], txn, ev);
      assert log == log[..|log| - 1] + [log[|log| - 1]];
    }
  }

  lemma {:induction false} TransactionInOrder(log: seq<Event>, txn: string)
    requires InOrder(log)
    ensures InOrder(OfTransaction(log, txn))
  {
    if log != [] {
      var front, last := log[..|log| - 1], log[|log| - 1];
      TransactionInOrder(front, txn);
      forall ev | ev in OfTransaction(front, txn) ensures ev.at <= last.at {
        TransactionEvents(front, txn, ev);
      }
      var events := OfTransaction(front, txn);
      assert forall i :: 0 <= i < |events| ==> events[i] in events;
    }
  }

  /** A store leaves the indexes of all other transactions alone. */
  lemma {:induction false} OtherIndexKept(c: Cache, cfg: Config, ns: string, ev: Event, txn: string)
    ensures var key, c', c'' := TxnIndexKey(ns, txn), AfterMessage(c, cfg, ns, ev),
      Persisted(c, cfg, ns, ev.entry, ev.at);
      && (key in c' <==> key in c) && (key in c ==> c'[key] == c[key])
      && (txn == "" || ev.entry.transactionID != txn ==>
          (key in c'' <==> key in c) && (key in c ==> c''[key] == c[key]))
  {
    KeysDiffer(ns, ev.entry.messageID, txn);
    KeysDiffer(ns, txn, ev.entry.transactionID);
  }

  lemma {:induction false} IndexAfterRun(cfg: Config, ns: string, log: seq<Event>, txn: string) returns (from: nat)
    requires cfg.Valid() && InOrder(log) && DistinctIds(log)
    ensures txn != "" ==> IndexSlot(Run(cfg, ns, log), cfg, ns, OfTransaction(log, txn), txn, from)
    ensures txn == "" ==> TxnIndexKey(ns, txn) !in Run(cfg, ns, log)
  {
    from := 0;
    if log != [] {
      var front, last := log[..|log| - 1], log[|log| - 1];
      assert log == front + [last];
      EarlierStores(front, last, txn);
      from := IndexAfterRun(cfg, ns, front, txn);
      from := IndexAfterStore(Run(cfg, ns, front), cfg, ns, front, last, txn, from);
    }
  }

  lemma {:induction false} IndexAfterStore(c: Cache, cfg: Config, ns: string, front: seq<Event>, last: Event,
                                           txn: string, from: nat)
    returns (from': nat)
    requires cfg.Valid() && InOrder(front + [last]) && DistinctIds(front + [last])
    requires txn != "" ==> IndexSlot(c, cfg, ns, OfTransaction(front, txn), txn, from)
    requires txn == "" ==> TxnIndexKey(ns, txn) !in c
    ensures var c' := Persisted(c, cfg, ns, last.entry, last.at);
      && (txn != "" ==> IndexSlot(c', cfg, ns, OfTransaction(front + [last], txn), txn, from'))
      && (txn == "" ==> TxnIndexKey(ns, txn) !in c')
  {
    from' := from;
    OtherIndexKept(c, cfg, ns, last, txn);
    assert (front + [last])[..|front|] == front;
    if txn != "" && last.entry.transactionID == txn {
      from' := IndexAfterOwn(c, cfg, ns, front, last, from);
    }
  }

  lemma {:induction false} IndexAfterOwn(c: Cache, cfg: Config, ns: string, front: seq<Event>, last: Event, from: nat)
    returns (from': nat)
    requires cfg.Valid() && InOrder(front + [last]) && DistinctIds(front + [last]) && last.entry.transactionID != ""
    requires IndexSlot(c, cfg, ns, OfTransaction(front, last.entry.transactionID), last.entry.transactionID, from)
    ensures IndexSlot(Persisted(c, cfg, ns, last.entry, last.at), cfg, ns,
                      OfTransaction(front, last.entry.transactionID) + [last], last.entry.transactionID, from')
  {
    var txn := last.entry.transactionID;
    EarlierStores(front, last, txn);
    TransactionInOrder(front, txn);
    OtherIndexKept(c, cfg, ns, last, txn);
    from' := AppendExtends(AfterMessage(c, cfg, ns, last), cfg, ns, OfTransaction(front, txn), last, from);
  }

  /** Appending to an index slot: the list goes on, or starts anew after the slot has expired. */
  lemma {:induction false} AppendExtends(c: Cache, cfg: Config, ns: string, events: seq<Event>, last: Event, from: nat)
    returns (from': nat)
    requires cfg.Valid() && InOrder(events) && IndexSlot(c, cfg, ns, events, last.entry.transactionID, from)
    requires forall i :: 0 <= i < |events| ==>
      events[i].at <= last.at && events[i].entry.messageID != last.entry.messageID
    ensures IndexSlot(Appended(c, cfg, ns, last.entry.transactionID, last.entry.messageID, last.at), cfg, ns,
                      events + [last], last.entry.transactionID, from')
  {
    var key := TxnIndexKey(ns, last.entry.transactionID);
    from' := if events == [] then 0 else if last.at < c[key].expires then from else |events|;
    var kept := events[from'..];
    assert (events + [last])[from'..] == kept + [last];
    IdsExtend(kept, last);
    LiveIds(c, cfg, ns, events, last.entry.transactionID, from, last.at);
    NotListed(events, from', last.entry.messageID);
    assert IndexIds(c, key, last.at) == Ids(kept);
    DroppedAreOld(c, cfg, ns, events, last, from, from');
    var c' := Appended(c, cfg, ns, last.entry.transactionID, last.entry.messageID, last.at);
    SlotExtends(c', cfg, ns, events, last, from');
  }

  /** What a slot no longer lists has outlived the entry TTL. */
  lemma {:induction false} DroppedAreOld(c: Cache, cfg: Config, ns: string, events: seq<Event>, last: Event,
                                         from: nat, from': nat)
    requires cfg.Valid() && InOrder(events) && IndexSlot(c, cfg, ns, events, last.entry.transactionID, from)
    requires forall i :: 0 <= i < |events| ==> events[i].at <= last.at
    requires from' == if events == [] then 0
                      else if last.at < c[TxnIndexKey(ns, last.entry.transactionID)].expires then from else |events|
    ensures from' <= |events| && forall i :: 0 <= i < from' ==> events[i].at + cfg.ttl <= last.at
  {}

  lemma {:induction false} SlotExtends(c: Cache, cfg: Config, ns: string, events: seq<Event>, last: Event, from: nat)
    requires from <= |events| && forall i :: 0 <= i < from ==> events[i].at + cfg.ttl <= last.at
    requires var key := TxnIndexKey(ns, last.entry.transactionID);
      key in c && c[key] == Slot(Index(Ids((events + [last])[from..])), last.at + cfg.indexTTL)
    ensures IndexSlot(c, cfg, ns, events + [last], last.entry.transactionID, from)
  {}

  lemma {:induction false} NotListed(events: seq<Event>, from: nat, id: string)
    requires from <= |events| && forall i :: 0 <= i < |events| ==> events[i].entry.messageID != id
    ensures id !in Ids(events[from..])
  {
    var kept := events[from..];
    assert forall i :: 0 <= i < |kept| ==> kept[i] == events[from + i];
  }

  /** The IDs a live index slot lists. */
  lemma {:induction false} LiveIds(c: Cache, cfg: Config, ns: string, events: seq<Event>, txn: string, from: nat,
                                   now: int)
    requires IndexSlot(c, cfg, ns, events, txn, from)
    ensures var key := TxnIndexKey(ns, txn);
      IndexIds(c, key, now) == if events != [] && now < c[key].expires then Ids(events[from..]) else []
  {}

  /** Every earlier store under a transaction was made no later, and of another message. */
  lemma {:induction false} EarlierStores(front: seq<Event>, last: Event, txn: string)
    requires InOrder(front + [last]) && DistinctIds(front + [last])
    ensures InOrder(front) && DistinctIds(front)
    ensures forall ev :: ev in OfTransaction(front, txn) ==>
      ev.at <= last.at && ev.entry.messageID != last.entry.messageID
  {
    var log := front + [last];
    assert log[|front|] == last;
    assert forall i :: 0 <= i < |front| ==> log[i] == front[i];
    forall ev | ev in OfTransaction(front, txn) ensures ev.at <= last.at && ev.entry.messageID != last.entry.messageID {
      TransactionEvents(front, txn, ev);
      var j :| 0 <= j < |front| && front[j] == ev;
      assert log[j] == ev;
    }
  }

  lemma {:induction false} IdsExtend(events: seq<Event>, last: Event)
    ensures Ids(events + [last]) == Ids(events) + [last.entry.messageID]
  {
    var longer := events + [last];
    assert forall i :: 0 <= i < |longer| ==> longer[i] == if i < |events| then events[i] else last;
  }

  /** The entries collected for stores with distinct IDs are the live ones among them. */
  lemma {:induction false} CollectIsLive(cfg: Config, ns: string, log: seq<Event>, events: seq<Event>, now: int)
    requires DistinctIds(log) && forall ev :: ev in events ==> ev in log
    ensures Collect(Run(cfg, ns, log), ns, Ids(events), now) == LiveEntries(cfg, events, now)
    decreases |events|
  {
    if events != [] {
      var n := |events| - 1;
      assert Ids(events)[..n] == Ids(events[..n]);
      CollectIsLive(cfg, ns, log, events[..n], now);
      OnlyStore(log, events[n]);
      MessageSlot(cfg, ns, log, events[n].entry.messageID);
    }
  }

  lemma {:induction false} OnlyStore(log: seq<Event>, ev: Event)
    requires DistinctIds(log) && ev in log
    ensures LastStore(log, ev.entry.messageID) == Some(ev)
  {
    var front, last := log[..|log| - 1], log[|log| - 1];
    if ev != last {
      assert log == front + [last];
      var i :| 0 <= i < |front| && front[i] == ev;
      assert log[i] == ev;
      OnlyStore(front, ev);
    }
  }

  lemma {:induction false} DeadDropped(cfg: Config, events: seq<Event>, from: nat, now: int)
    requires from <= |events| && forall i :: 0 <= i < from ==> events[i].at + cfg.ttl <= now
    ensures LiveEntries(cfg, events, now) == LiveEntries(cfg, events[from..], now)
    decreases |events|
  {
    if events != [] {
      var n := |events| - 1;
      if from == |events| {
        AllDead(cfg, events, now);
      } else {
        DeadDropped(cfg, events[..n], from, now);
        assert events[from..][..n - from] == events[..n][from..];
      }
    }
  }

  lemma {:induction false} AllDead(cfg: Config, events: seq<Event>, now: int)
    requires forall i :: 0 <= i < |events| ==> events[i].at + cfg.ttl <= now
    ensures LiveEntries(cfg, events, now) == []
  {
    if events != [] { AllDead(cfg, events[..|events| - 1], now); }
  }

  /** The index agrees with the log: at any time after a run of stores with distinct IDs, a transaction's entries are
      exactly those stored under it within the last entry TTL, in store order. Stores without a transaction are not
      indexed. */
  lemma {:induction false} TransactionAgreesWithLog(cfg: Config, ns: string, log: seq<Event>, txn: string, now: int)
    requires cfg.Valid() && InOrder(log) && DistinctIds(log)
    requires log != [] ==> log[|log| - 1].at <= now
    ensures ByTransaction(Run(cfg, ns, log), ns, txn, now) ==
            if txn == "" then [] else LiveEntries(cfg, OfTransaction(log, txn), now)
  {
    var from := IndexAfterRun(cfg, ns, log, txn);
    if txn != "" && OfTransaction(log, txn) != [] {
      IndexedAgrees(cfg, ns, log, txn, from, now);
    }
  }

  lemma {:induction false} IndexedAgrees(cfg: Config, ns: string, log: seq<Event>, txn: string, from: nat, now: int)
    requires cfg.Valid() && InOrder(log) && DistinctIds(log) && log != [] && log[|log| - 1].at <= now
    requires OfTransaction(log, txn) != [] && IndexSlot(Run(cfg, ns, log), cfg, ns, OfTransaction(log, txn), txn, from)
    ensures ByTransaction(Run(cfg, ns, log), ns, txn, now) == LiveEntries(cfg, OfTransaction(log, txn), now)
  {
    var events := OfTransaction(log, txn);
    TransactionInOrder(log, txn);
    forall ev | ev in events ensures ev in log { TransactionEvents(log, txn, ev); }
    var last := events[|events| - 1];
    assert last in log;
    if now < last.at + cfg.indexTTL {
      CollectIsLive(cfg, ns, log, events[from..], now);
      DeadDropped(cfg, events, from, now);
    } else {
      AllDead(cfg, events, now);
    }
  }

  // ----- Stores of a message already listed -----

  lemma {:induction false} CollectHas(c: Cache, ns: string, ids: seq<string>, id: string, now: int)
    requires id in ids && Fetch(c, ns, id, now).Some?
    ensures Fetch(c, ns, id, now).value in Collect(c, ns, ids, now)
  {
    var n := |ids| - 1;
    if ids[n] != id {
      assert ids == ids[..n] + [ids[n]];
      CollectHas(c, ns, ids[..n], id, now);
    }
  }

  /** A store into any cache whatever: its entry is returned with its transaction throughout the entry TTL exactly when
      its ID was not already in the live index, or that index outlives the new entry. The index is not refreshed
      otherwise. */
  lemma {:induction false} StoredIsListedIff(c: Cache, cfg: Config, ns: string, ev: Event)
    requires cfg.Valid() && ev.entry.transactionID != ""
    ensures var e, key, at := ev.entry, TxnIndexKey(ns, ev.entry.transactionID), ev.at;
      var c' := Persisted(c, cfg, ns, e, at);
      (forall now :: at <= now < at + cfg.ttl ==>
          Recorded(cfg, e, at) in ByTransaction(c', ns, e.transactionID, now)) <==>
      (e.messageID in IndexIds(c, key, at) ==> at + cfg.ttl <= c[key].expires)
  {
    var e, key, at := ev.entry, TxnIndexKey(ns, ev.entry.transactionID), ev.at;
    var c' := Persisted(c, cfg, ns, e, at);
    KeysDiffer(ns, e.messageID, e.transactionID);
    if e.messageID in IndexIds(c, key, at) && c[key].expires < at + cfg.ttl {
      var now := c[key].expires;
      assert IndexIds(c', key, now) == [];
      assert Recorded(cfg, e, at) !in ByTransaction(c', ns, e.transactionID, now);
    } else {
      forall now | at <= now < at + cfg.ttl
          ensures Recorded(cfg, e, at) in ByTransaction(c', ns, e.transactionID, now) {
        StoredIsListed(c, cfg, ns, ev, now);
      }
    }
  }

  /** It happens: a message stored again within its TTL is not returned with its transaction once the index, which
      dates from the first store, has expired. */
  lemma {:induction false} RestoredIsLost(cfg: Config, ns: string, e: Entry, gap: nat)
    requires cfg.Valid() && cfg.indexTTL == cfg.ttl && 0 < gap < cfg.ttl && e.transactionID != ""
    ensures var log, now := [Event(e, 0), Event(e, gap)], cfg.ttl;
      && InOrder(log) && gap <= now < gap + cfg.ttl
      && ByMessage(Run(cfg, ns, log), ns, e.messageID, "", now) == Some(Recorded(cfg, e, gap))
      && ByTransaction(Run(cfg, ns, log), ns, e.transactionID, now) == []
  {
    var log, key := [Event(e, 0), Event(e, gap)], TxnIndexKey(ns, e.transactionID);
    assert log[..1] == [Event(e, 0)] && log[..1][..0] == [];
    KeysDiffer(ns, e.messageID, e.transactionID);
    assert log[..1][0] == Event(e, 0);
    assert Run(cfg, ns, log[..1][..0]) == map[];
    var c := Persisted(map[], cfg, ns, e, 0);
    assert c[key] == Slot(Index([] + [e.messageID]), cfg.indexTTL);
    assert Run(cfg, ns, log) == Persisted(c, cfg, ns, e, gap);
    ByMessageIsLastStore(cfg, ns, log, e.messageID, "", cfg.ttl);
  }

  lemma {:induction false} StoredIsListed(c: Cache, cfg: Config, ns: string, ev: Event, now: int)
    requires cfg.Valid() && ev.entry.transactionID != "" && ev.at <= now < ev.at + cfg.ttl
    requires var key := TxnIndexKey(ns, ev.entry.transactionID);
      ev.entry.messageID in IndexIds(c, key, ev.at) ==> ev.at + cfg.ttl <= c[key].expires
    ensures Recorded(cfg, ev.entry, ev.at) in
      ByTransaction(Persisted(c, cfg, ns, ev.entry, ev.at), ns, ev.entry.transactionID, now)
  {
    var e, key := ev.entry, TxnIndexKey(ns, ev.entry.transactionID);
    var c' := Persisted(c, cfg, ns, e, ev.at);
    KeysDiffer(ns, e.messageID, e.transactionID);
    assert Fetch(c', ns, e.messageID, now) == Some(Recorded(cfg, e, ev.at));
    CollectHas(c', ns, IndexIds(c', key, now), e.messageID, now);
  }

  /** A message stored again under another transaction stays with the first one too, as the entry of the second. */
  lemma {:induction false} MovedStaysListed(c: Cache, cfg: Config, ns: string, ev: Event, first: string, now: int)
    requires cfg.Valid() && first != ev.entry.transactionID && ev.at <= now < ev.at + cfg.ttl
    requires ev.entry.messageID in IndexIds(c, TxnIndexKey(ns, first), now)
    ensures Recorded(cfg, ev.entry, ev.at) in ByTransaction(Persisted(c, cfg, ns, ev.entry, ev.at), ns, first, now)
  {
    var c' := Persisted(c, cfg, ns, ev.entry, ev.at);
    OtherIndexKept(c, cfg, ns, ev, first);
    KeysDiffer(ns, ev.entry.messageID, ev.entry.transactionID);
    assert Fetch(c', ns, ev.entry.messageID, now) == Some(Recorded(cfg, ev.entry, ev.at));
    CollectHas(c', ns, IndexIds(c', TxnIndexKey(ns, first), now), ev.entry.messageID, now);
  }

  /** All live entries returned with the transaction are of that transaction. */
  ghost predicate OwnEntries(c: Cache, ns: string, txn: string, now: int) {
    forall e :: e in ByTransaction(c, ns, txn, now) ==> e.transactionID == txn
  }

  /** Messages other than the stored one are collected as before. */
  lemma {:induction false} CollectWithout(c: Cache, cfg: Config, ns: string, ev: Event, ids: seq<string>, now: int)
    requires ev.entry.messageID !in ids
    ensures Collect(Persisted(c, cfg, ns, ev.entry, ev.at), ns, ids, now) == Collect(c, ns, ids, now)
  {
    if ids != [] {
      var n := |ids| - 1;
      assert ids == ids[..n] + [ids[n]];
      CollectWithout(c, cfg, ns, ev, ids[..n], now);
      KeysDiffer(ns, ids[n], ev.entry.messageID);
      KeysDiffer(ns, ids[n], ev.entry.transactionID);
    }
  }

  /** From a cache whose live entries under a transaction are all its own: they are still, throughout the TTL of a
      message stored under another transaction, exactly when that message's ID is not in the transaction's live
      index. */
  lemma {:induction false} EntriesStayOwnIff(c: Cache, cfg: Config, ns: string, ev: Event, first: string)
    requires cfg.Valid() && first != ev.entry.transactionID
    requires forall now :: ev.at <= now < ev.at + cfg.ttl ==> OwnEntries(c, ns, first, now)
    ensures (forall now :: ev.at <= now < ev.at + cfg.ttl ==>
               OwnEntries(Persisted(c, cfg, ns, ev.entry, ev.at), ns, first, now)) <==>
            ev.entry.messageID !in IndexIds(c, TxnIndexKey(ns, first), ev.at)
  {
    var c', key := Persisted(c, cfg, ns, ev.entry, ev.at), TxnIndexKey(ns, first);
    if ev.entry.messageID in IndexIds(c, key, ev.at) {
      MovedStaysListed(c, cfg, ns, ev, first, ev.at);
      assert Recorded(cfg, ev.entry, ev.at).transactionID == ev.entry.transactionID;
      assert !OwnEntries(c', ns, first, ev.at);
    } else {
      OtherIndexKept(c, cfg, ns, ev, first);
      forall now | ev.at <= now < ev.at + cfg.ttl ensures OwnEntries(c', ns, first, now) {
        var ids := IndexIds(c, key, now);
        assert ids == [] || ids == IndexIds(c, key, ev.at);
        CollectWithout(c, cfg, ns, ev, ids, now);
        assert OwnEntries(c, ns, first, now);
      }
    }
  }

  // ----- The store -----

  class Store {
    const cfg: Config
    const ns: string
    var cache: Cache
    ghost var log: seq<Event>

    /** The cache holds what a run over the logged stores leaves. */
    ghost predicate Valid()
      reads this
    {
      cfg.Valid() && ns != "" && cache == Run(cfg, ns, log)
    }

    constructor (cfg: Config, ns: string)
      requires cfg.Valid() && ns != ""
      ensures Valid() && this.cfg == cfg && this.ns == ns && log == []
    {
      this.cfg, this.ns, cache, log := cfg, ns, map[], [];
    }

    /** Stores a message unless it has no ID. */
    method Put(entry: Entry, now: int)
      requires Valid()
      modifies this
      ensures Valid()
      ensures log == if entry.messageID == "" then old(log) else old(log) + [Event(entry, now)]
    {
      if entry.messageID == "" {
        return;
      }
      Persist(entry, now);
      log := log + [Event(entry, now)];
      assert log[..|log| - 1] == old(log);
    }

    method Persist(entry: Entry, now: int)
      modifies this`cache
      ensures cache == Persisted(old(cache), cfg, ns, entry, now)
    {
      var kept := entry;
      if !cfg.storeBody {
        kept := kept.(requestBody := "");
      }
      if !cfg.storeSignature {
        kept := kept.(signature := "");
      }
      if cfg.maxBodyBytes > 0 && |kept.requestBody| > cfg.maxBodyBytes {
        kept := kept.(requestBody := kept.requestBody[..cfg.maxBodyBytes]);
      }
      kept := kept.(storedAt := now, expiresAt := now + cfg.ttl);
      cache := cache[MsgKey(ns, entry.messageID) := Slot(Message(kept), now + cfg.ttl)];
      if entry.transactionID != "" {
        AppendToIndex(entry.transactionID, entry.messageID, now);
      }
    }

    method AppendToIndex(txn: string, id: string, now: int)
      modifies this`cache
      ensures cache == Appended(old(cache), cfg, ns, txn, id, now)
    {
      var key := TxnIndexKey(ns, txn);
      var ids := IndexIds(cache, key, now);
      var i := 0;
      while i < |ids|
        invariant 0 <= i <= |ids| && id !in ids[..i]
        invariant cache == old(cache)
      {
        if ids[i] == id {
          return;
        }
        i := i + 1;
      }
      cache := cache[key := Slot(Index(ids + [id]), now + cfg.indexTTL)];
    }

    method GetByTransactionID(txn: string, now: int) returns (entries: seq<Entry>)
      requires Valid()
      ensures entries == ByTransaction(cache, ns, txn, now)
      ensures InOrder(log) && DistinctIds(log) && (log != [] ==> log[|log| - 1].at <= now) ==>
              entries == if txn == "" then [] else LiveEntries(cfg, OfTransaction(log, txn), now)
    {
      if InOrder(log) && DistinctIds(log) && (log != [] ==> log[|log| - 1].at <= now) {
        TransactionAgreesWithLog(cfg, ns, log, txn, now);
      }
      entries := [];
      var ids := IndexIds(cache, TxnIndexKey(ns, txn), now);
      for i := 0 to |ids|
        invariant entries == Collect(cache, ns, ids[..i], now)
      {
        assert ids[..i + 1][..i] == ids[..i];
        var entry := Get(cache, MsgKey(ns, ids[i]), now);
        if entry.Some? && entry.value.Message? {
          entries := entries + [entry.value.entry];
        }
      }
      assert ids[..|ids|] == ids;
    }

    method GetByMessageID(id: string, action: string, now: int) returns (entry: Option<Entry>)
      requires Valid()
      ensures var last := LastStore(log, id);
        entry == if last.Some? && now < last.value.at + cfg.ttl && (action == "" || last.value.entry.action == action)
                 then Some(Recorded(cfg, last.value.entry, last.value.at)) else None
      ensures entry.Some? ==> Keeps(cfg, LastStore(log, id).value.entry, LastStore(log, id).value.at, entry.value)
    {
      ByMessageIsLastStore(cfg, ns, log, id, action, now);
      var slot := Get(cache, MsgKey(ns, id), now);
      if !(slot.Some? && slot.value.Message?) {
        return None;
      }
      if action != "" && slot.value.entry.action != action {
        return None;
      }
      return Some(slot.value.entry);
    }
  }
}
