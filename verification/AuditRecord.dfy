/**
  * Audit records and checkpoints, how an event becomes a record, and the checks the verifier
  * makes on one record alone: src/core/audit_chain.rs.
  *
  * The hash is a parameter. A line of the file is its parsed form; anything that is not the
  * canonical encoding of a record or of a checkpoint line is Unreadable.
  */
module AuditRecord {
  import opened Text

  const CHAIN_VERSION := "audit-chain-v1"
  const CHECKPOINT_TYPE := "vectis-audit-checkpoint"
  const INIT_KEYS_KID := "init-keys"
  const HASH_ALG := "BLAKE2b(256)"
  const GENESIS_EVENT := "audit.chain.started"
  const GENESIS_HASH: string := Zeros(64)
  const RECORD_MAX_BYTES: nat := 16 * 1024
  const REASON_MAX_CHARS: nat := 256

  function Zeros(n: nat): (s: string)
    ensures |s| == n && IsHex(s)
  {
    if n == 0 then "" else Zeros(n - 1) + ['0']
  }

  datatype Event = Event(event: string, outcome: string, actor: string, actorFp: string, root: bool, admin: bool,
                         kid: string, remoteKid: string, action: string, reason: string, requestId: string)

  datatype Body = Body(version: string, chainId: string, sequence: u64, timestamp: string,
                       event: string, outcome: string, actor: string, actorFp: string, root: bool, admin: bool,
                       kid: string, remoteKid: string, action: string, reason: string, requestId: string,
                       hashAlg: string, prevHash: string)

  datatype Record = Record(body: Body, eventHash: string)

  datatype Payload = Payload(version: string, tokenType: string, kid: string, chainId: string,
                             lastSequence: u64, headHash: string, hashAlg: string, createdAt: string)

  /** A checkpoint line counts as genuine when its signature verifies and yields the payload. */
  datatype Line = RecordLine(record: Record) | CheckpointLine(payload: Payload, genuine: bool) | Unreadable

  type HashFn = Body -> string

  predicate HashHex(s: string) { |s| == 64 && IsHex(s) }

  ghost predicate HashesAreHex(h: HashFn) { forall b :: HashHex(h(b)) }

  predicate ChainIdOk(s: string) { |s| == 32 && IsHex(s) }

  // ----- from event to record -----

  function Printable(s: string): string {
    if s == [] then [] else Printable(s[..|s| - 1]) + (if IsControl(s[|s| - 1]) then [] else [s[|s| - 1]])
  }

  /** Drops control characters and keeps the first 256 of what remains. */
  function Sanitize(s: string): string {
    var p := Printable(s);
    if |p| <= REASON_MAX_CHARS then p else p[..REASON_MAX_CHARS]
  }

  function BodyFor(chainId: string, sequence: u64, clock: u64, e: Event, prevHash: string): Body {
    Body(CHAIN_VERSION, chainId, sequence, Decimal(clock),
         Sanitize(e.event), Sanitize(e.outcome), Sanitize(e.actor), Sanitize(e.actorFp), e.root, e.admin,
         Sanitize(e.kid), Sanitize(e.remoteKid), Sanitize(e.action), Sanitize(e.reason), Sanitize(e.requestId),
         HASH_ALG, prevHash)
  }

  /** Every field of the event is in its own place in the record, its texts sanitized. */
  predicate Records(r: Record, e: Event) {
    var b := r.body;
    && b.event == Sanitize(e.event) && b.outcome == Sanitize(e.outcome)
    && b.actor == Sanitize(e.actor) && b.actorFp == Sanitize(e.actorFp) && b.root == e.root && b.admin == e.admin
    && b.kid == Sanitize(e.kid) && b.remoteKid == Sanitize(e.remoteKid)
    && b.action == Sanitize(e.action) && b.reason == Sanitize(e.reason) && b.requestId == Sanitize(e.requestId)
  }

  /** The record of this event, written at this clock reading. */
  predicate RecordsAt(r: Record, e: Event, clock: u64) { Records(r, e) && r.body.timestamp == Decimal(clock) }

  lemma BodyRecords(chainId: string, sequence: u64, clock: u64, e: Event, prevHash: string, eventHash: string)
    ensures var b := BodyFor(chainId, sequence, clock, e, prevHash);
      RecordsAt(Record(b, eventHash), e, clock) && b.chainId == chainId && b.sequence == sequence && b.prevHash == prevHash
  {
    hide Sanitize, Decimal;
  }

  function ChainStarted(): Event {
    Event(GENESIS_EVENT, "success", "", "", false, false, "", "", "chain-start", "", "")
  }

  // ----- size -----

  function BoolLen(b: bool): nat { if b then 4 else 5 }

  /** The length of the canonical JSON: 18 keys in order, 201 bytes of punctuation and names. */
  function SerializedLen(r: Record): nat {
    var b := r.body;
    201 + JsonStringLen(b.action) + JsonStringLen(b.actor) + JsonStringLen(b.actorFp) + BoolLen(b.admin)
    + JsonStringLen(b.chainId) + JsonStringLen(b.event) + JsonStringLen(r.eventHash) + JsonStringLen(b.hashAlg)
    + JsonStringLen(b.kid) + JsonStringLen(b.outcome) + JsonStringLen(b.prevHash) + JsonStringLen(b.reason)
    + JsonStringLen(b.remoteKid) + JsonStringLen(b.requestId) + BoolLen(b.root) + |Decimal(b.sequence)|
    + JsonStringLen(b.timestamp) + JsonStringLen(b.version)
  }

  // ----- validation of one record -----

  function TextFields(b: Body): seq<string> {
    [b.event, b.outcome, b.actor, b.actorFp, b.kid, b.remoteKid, b.action, b.reason, b.requestId]
  }

  predicate ShapeOk(r: Record) {
    && r.body.version == CHAIN_VERSION && r.body.hashAlg == HASH_ALG
    && ChainIdOk(r.body.chainId)
    && ParsesAsU64(r.body.timestamp)
    && r.body.event != "" && r.body.outcome != ""
    && |r.body.reason| <= REASON_MAX_CHARS
    && forall k :: 0 <= k < 9 ==> !HasControl(TextFields(r.body)[k])
  }

  predicate RecordOk(h: HashFn, r: Record) {
    && ShapeOk(r)
    && HashHex(r.body.prevHash) && HashHex(r.eventHash)
    && SerializedLen(r) <= RECORD_MAX_BYTES
    && h(r.body) == r.eventHash
  }

  predicate PayloadOk(p: Payload) {
    && p.version == "v1" && p.tokenType == CHECKPOINT_TYPE && p.kid == INIT_KEYS_KID && p.hashAlg == HASH_ALG
    && ChainIdOk(p.chainId) && HashHex(p.headHash) && ParsesAsU64(p.createdAt)
  }

  predicate IsGenesis(r: Record) { r.body.event == GENESIS_EVENT }

  predicate GenesisOk(r: Record) {
    r.body.sequence == 0 && r.body.prevHash == GENESIS_HASH && r.body.outcome == "success" && r.body.action == "chain-start"
  }

  // ----- what the writer produces -----

  lemma {:induction false} PrintableHasNoControl(s: string)
    ensures !HasControl(Printable(s)) && |Printable(s)| <= |s|
  {
    if s != [] { PrintableHasNoControl(s[..|s| - 1]); }
  }

  lemma {:induction false} PrintableKeepsClean(s: string)
    requires !HasControl(s)
    ensures Printable(s) == s
  {
    if s != [] {
      assert !IsControl(s[|s| - 1]);
      PrintableKeepsClean(s[..|s| - 1]);
      assert s == s[..|s| - 1] + [s[|s| - 1]];
    }
  }

  lemma SanitizedText(s: string)
    ensures !HasControl(Sanitize(s)) && |Sanitize(s)| <= REASON_MAX_CHARS
    ensures JsonStringLen(Sanitize(s)) <= 1026
    ensures !HasControl(s) && |s| <= REASON_MAX_CHARS ==> Sanitize(s) == s
  {
    PrintableHasNoControl(s);
    EscapedBound(Sanitize(s));
    if !HasControl(s) { PrintableKeepsClean(s); }
  }

  /** A control character anywhere makes no difference. */
  lemma ControlsAreDropped(a: string, c: char, b: string)
    requires IsControl(c)
    ensures Sanitize(a + [c] + b) == Sanitize(a + b)
  {
    PrintableWithout(a, c, b);
  }

  lemma {:induction false} PrintableWithout(a: string, c: char, b: string)
    requires IsControl(c)
    ensures Printable(a + [c] + b) == Printable(a + b)
    decreases |b|
  {
    var s, t := a + [c] + b, a + b;
    if b == [] {
      assert s[..|s| - 1] == a == t;
    } else {
      var front := b[..|b| - 1];
      PrintableWithout(a, c, front);
      assert s[..|s| - 1] == a + [c] + front && t[..|t| - 1] == a + front;
    }
  }

  /** What remains is cut after 256 characters. */
  lemma LongTextIsCut(s: string)
    requires !HasControl(s) && |s| > REASON_MAX_CHARS
    ensures Sanitize(s) == s[..256]
  {
    PrintableKeepsClean(s);
  }

  lemma StartText()
    ensures Sanitize(GENESIS_EVENT) == GENESIS_EVENT && Sanitize("success") == "success" && Sanitize("chain-start") == "chain-start"
    ensures Sanitize("") == ""
  {
    hide Sanitize;
    SanitizedText(GENESIS_EVENT);
    SanitizedText("success");
    SanitizedText("chain-start");
    SanitizedText("");
  }

  lemma FixedLengths()
    ensures JsonStringLen(CHAIN_VERSION) == 16 && JsonStringLen(HASH_ALG) == 14
    ensures HashHex(GENESIS_HASH)
  {
    PlainLength(CHAIN_VERSION);
    PlainLength(HASH_ALG);
  }

  lemma ClockText(clock: u64)
    ensures ParsesAsU64(Decimal(clock)) && JsonStringLen(Decimal(clock)) <= 22
  {
    DecimalIsU64(clock);
    DecimalParses(clock);
    U64DecimalLength(clock);
    PlainLength(Decimal(clock));
  }

  /** No event, however long or hostile, makes a record over the size limit. */
  lemma WriterRecordsFit(h: HashFn, chainId: string, sequence: u64, clock: u64, e: Event, prevHash: string)
    requires HashesAreHex(h) && ChainIdOk(chainId) && HashHex(prevHash)
    ensures var b := BodyFor(chainId, sequence, clock, e, prevHash); SerializedLen(Record(b, h(b))) <= 9683
  {
    hide Sanitize, Decimal, JsonStringLen;
    var b := BodyFor(chainId, sequence, clock, e, prevHash);
    SanitizedText(e.event);
    SanitizedText(e.outcome);
    SanitizedText(e.actor);
    SanitizedText(e.actorFp);
    SanitizedText(e.kid);
    SanitizedText(e.remoteKid);
    SanitizedText(e.action);
    SanitizedText(e.reason);
    SanitizedText(e.requestId);
    FixedLengths();
    ClockText(clock);
    U64DecimalLength(sequence);
    assert HashHex(h(b));
    HexLength(h(b));
    HexLength(chainId);
    HexLength(prevHash);
  }

  /** A record the writer builds passes the single-record checks exactly when event and outcome keep a character. */
  lemma WriterRecordsValidate(h: HashFn, chainId: string, sequence: u64, clock: u64, e: Event, prevHash: string)
    requires HashesAreHex(h) && ChainIdOk(chainId) && HashHex(prevHash)
    ensures var b := BodyFor(chainId, sequence, clock, e, prevHash);
      RecordOk(h, Record(b, h(b))) <==> Sanitize(e.event) != "" && Sanitize(e.outcome) != ""
  {
    hide Sanitize, Decimal, JsonStringLen, SerializedLen;
    var b := BodyFor(chainId, sequence, clock, e, prevHash);
    WriterRecordsFit(h, chainId, sequence, clock, e, prevHash);
    SanitizedText(e.event);
    SanitizedText(e.outcome);
    SanitizedText(e.actor);
    SanitizedText(e.actorFp);
    SanitizedText(e.kid);
    SanitizedText(e.remoteKid);
    SanitizedText(e.action);
    SanitizedText(e.reason);
    SanitizedText(e.requestId);
    ClockText(clock);
    assert HashHex(h(b));
  }
}
