/**
 * `Identity`: loading it from its two files or creating it, rotating it, and the key
 * provider that signs for it. Random keys and ids and the clock enter as `Fresh`;
 * `publicText` is the public key text of a private key.
 */
module Identities {
  import opened Wrappers
  import opened Text
  import opened Json
  import opened JsonText
  import opened Crypto
  import Base64

  /** The 32 raw bytes of a private key. */
  type Key = k: seq<Byte> | |k| == 32 witness seq(32, _ => 0)

  datatype Identity = Identity(
    agentId: string, privateKey: Key, keyId: string, revision: int, createdAt: string,
    recoveryKeyId: string, recoveryKey: Key)

  /** What one constructor call may draw: `hex` digits of new ids, new keys and the time. */
  datatype Fresh = Fresh(key: Key, keyHex: string, recoveryKey: Key, recoveryHex: string, now: string)

  datatype KeyItem = KeyItem(keyId: string, publicKey: string, privateKey: string)

  /** A `{"keys": [...]}` dict, an empty one, or none. */
  datatype Section = Missing | Empty | Keys(items: seq<KeyItem>)

  /** The operational file; "" and 0 stand for absent entries. */
  datatype Record = Record(
    agentId: string, keyId: string, revision: int, createdAt: string, publicKey: string, privateKey: string,
    recovery: Section)

  datatype Files = Files(operational: Option<Record>, recovery: Section)

  // ------------------------------------------------------- texts of keys

  function PrivateText(key: Key): string {
    "ed25519:" + Base64.Encode(key)
  }

  function StripPrefix(text: string, prefix: string): string {
    if prefix <= text then text[|prefix|..] else text
  }

  /** None: the text is not base64, or not 32 bytes. */
  function ReadKey(text: string): Option<Key> {
    match Base64.Decode(StripPrefix(text, "ed25519:"))
    case None => None
    case Some(raw) => if |raw| == 32 then Some(raw) else None
  }

  lemma PrivateTextReads(key: Key)
    ensures ReadKey(PrivateText(key)) == Some(key) && PrivateText(key) != ""
  {
    Base64.RoundTrip(key);
    assert PrivateText(key)[8..] == Base64.Encode(key);
  }

  // ----------------------------------------------------- records and loading

  function Generate(agentId: string, draw: Fresh): Identity {
    Identity(agentId, draw.key, "key-" + draw.keyHex, 1, draw.now, "recovery-" + draw.recoveryHex, draw.recoveryKey)
  }

  function ToRecord(id: Identity, publicText: Key -> string): Record {
    Record(id.agentId, id.keyId, id.revision, id.createdAt, publicText(id.privateKey), PrivateText(id.privateKey),
           Keys(if id.recoveryKeyId == "" then [] else [KeyItem(id.recoveryKeyId, publicText(id.recoveryKey), "")]))
  }

  function ToRecoveryRecord(id: Identity, publicText: Key -> string): Section {
    Keys([KeyItem(id.recoveryKeyId, publicText(id.recoveryKey), PrivateText(id.recoveryKey))])
  }

  /** The recovery keys that a record is read with: the recovery file's dict, unless it is empty. */
  function RecoveryItems(record: Record, recovery: Section): seq<KeyItem> {
    if recovery.Keys? then recovery.items else if record.recovery.Keys? then record.recovery.items else []
  }

  /** `from_record` with the defaults that `__post_init__` adds. None: a key cannot be read. */
  function FromRecord(record: Record, recovery: Section, draw: Fresh): Option<Identity> {
    var items := RecoveryItems(record, recovery);
    var keyId := if record.keyId == "" then "key-" + draw.keyHex else record.keyId;
    var revision := if record.revision == 0 then 1 else record.revision;
    var createdAt := if record.createdAt == "" then draw.now else record.createdAt;
    match ReadKey(record.privateKey)
    case None => None
    case Some(key) =>
      if items == [] || items[0].privateKey == "" then
        Some(Identity(record.agentId, key, keyId, revision, createdAt, "recovery-" + draw.recoveryHex, draw.recoveryKey))
      else
        match ReadKey(items[0].privateKey)
        case None => None
        case Some(recoveryKey) =>
          var recoveryKeyId := if items[0].keyId == "" then "recovery-1" else items[0].keyId;
          Some(Identity(record.agentId, key, keyId, revision, createdAt, recoveryKeyId, recoveryKey))
  }

  /** A legacy file that holds both private keys. */
  predicate Combined(record: Record) {
    record.recovery.Keys? && exists i | 0 <= i < |record.recovery.items| :: record.recovery.items[i].privateKey != ""
  }

  /** The identity that is returned, if any, and the files afterwards. */
  function Loaded(files: Files, agentId: string, draw: Fresh, publicText: Key -> string): (Option<Identity>, Files) {
    match files.operational
    case None =>
      var id := Generate(agentId, draw);
      (Some(id), Files(Some(ToRecord(id, publicText)), ToRecoveryRecord(id, publicText)))
    case Some(record) =>
      match FromRecord(record, files.recovery, draw)
      case None => (None, files)
      case Some(id) =>
        if id.agentId != agentId then (None, files)
        else if Combined(record) || files.recovery.Missing? then
          (Some(id), Files(Some(ToRecord(id, publicText)), ToRecoveryRecord(id, publicText)))
        else (Some(id), files)
  }

  /** The two files of one agent directory. */
  class IdentityFiles {
    var operational: Option<Record>
    var recovery: Section

    function Contents(): Files
      reads this
    {
      Files(operational, recovery)
    }

    /** `load_or_create`; None is a ValueError. */
    method LoadOrCreate(agentId: string, draw: Fresh, publicText: Key -> string) returns (r: Option<Identity>)
      modifies this
      ensures (r, Contents()) == Loaded(old(Contents()), agentId, draw, publicText)
    {
      if operational.Some? {
        var record := operational.value;
        r := FromRecord(record, recovery, draw);
        if r.None? || r.value.agentId != agentId {
          return None;
        }
        var combined := false;
        if record.recovery.Keys? {
          var items := record.recovery.items;
          for i := 0 to |items|
            invariant combined <==> exists k | 0 <= k < i :: items[k].privateKey != ""
          {
            combined := combined || items[i].privateKey != "";
          }
        }
        if combined || recovery.Missing? {
          recovery := ToRecoveryRecord(r.value, publicText);
          operational := Some(ToRecord(r.value, publicText));
        }
        return r;
      }
      var id := Generate(agentId, draw);
      operational := Some(ToRecord(id, publicText));
      recovery := ToRecoveryRecord(id, publicText);
      return Some(id);
    }
  }

  // ------------------------------------------------------------ the fixpoint

  /** Both files are complete, and only the recovery file holds the recovery private key. */
  predicate Settled(files: Files, agentId: string) {
    && files.operational.Some? && CompleteRecord(files.operational.value, agentId)
    && files.recovery.Keys? && files.recovery.items != []
    && files.recovery.items[0].privateKey != "" && ReadKey(files.recovery.items[0].privateKey).Some?
  }

  predicate CompleteRecord(record: Record, agentId: string) {
    && record.agentId == agentId && ReadKey(record.privateKey).Some?
    && record.keyId != "" && record.createdAt != "" && !Combined(record)
  }

  /** Two draws with nothing in common. */
  predicate Unlike(f: Fresh, g: Fresh) {
    f.key != g.key && f.keyHex != g.keyHex && f.recoveryKey != g.recoveryKey && f.now != g.now
  }

  /** Writing an identity down settles the files, and they read back as that identity. */
  lemma WrittenReadsBack(id: Identity, draw: Fresh, publicText: Key -> string)
    requires id.keyId != "" && id.createdAt != "" && id.recoveryKeyId != "" && id.revision != 0
    ensures var files := Files(Some(ToRecord(id, publicText)), ToRecoveryRecord(id, publicText));
            Settled(files, id.agentId) && Loaded(files, id.agentId, draw, publicText) == (Some(id), files)
  {
    hide ReadKey, PrivateText;
    PrivateTextReads(id.privateKey);
    PrivateTextReads(id.recoveryKey);
  }

  /**
   * Settled files are exactly those that every load reads as the same identity and leaves
   * alone, whatever it draws.
   */
  lemma SettledExactly(files: Files, agentId: string, f: Fresh, g: Fresh, publicText: Key -> string)
    requires Unlike(f, g)
    ensures Settled(files, agentId) <==>
            && Loaded(files, agentId, f, publicText) == Loaded(files, agentId, g, publicText)
            && Loaded(files, agentId, f, publicText).0.Some?
            && Loaded(files, agentId, f, publicText).1 == files
  {
    hide ReadKey, PrivateText;
    if files.operational.Some? {
      var record := files.operational.value;
      assert ("key-" + f.keyHex)[4..] == f.keyHex && ("key-" + g.keyHex)[4..] == g.keyHex;
      var id := FromRecord(record, files.recovery, f);
      if id.Some? {
        assert !Combined(ToRecord(id.value, publicText));
      }
    }
  }

  /** What loading returns always has ids, a time and a revision, given a clock that has a text. */
  lemma LoadedIsComplete(files: Files, agentId: string, draw: Fresh, publicText: Key -> string)
    requires draw.now != "" && Loaded(files, agentId, draw, publicText).0.Some?
    ensures var id := Loaded(files, agentId, draw, publicText).0.value;
            id.agentId == agentId && id.keyId != "" && id.createdAt != "" && id.recoveryKeyId != "" && id.revision != 0
  {
    hide ReadKey, PrivateText;
  }

  /**
   * One successful load settles the files and returns what every later load returns, unless
   * there was an operational file and, next to it, a recovery file that the load neither
   * rewrote nor could use in full.
   */
  lemma OneLoadSettlesIff(files: Files, agentId: string, draw: Fresh, later: Fresh, publicText: Key -> string)
    requires draw.now != "" && Loaded(files, agentId, draw, publicText).0.Some?
    ensures var (id, after) := Loaded(files, agentId, draw, publicText);
            && (Settled(after, agentId) <==>
                || files.operational.None? || Combined(files.operational.value) || files.recovery.Missing?
                || Settled(files, agentId))
            && (Settled(after, agentId) ==> Loaded(after, agentId, later, publicText) == (id, after))
  {
    hide ReadKey, PrivateText;
    LoadedIsComplete(files, agentId, draw, publicText);
    var (id, after) := Loaded(files, agentId, draw, publicText);
    WrittenReadsBack(id.value, later, publicText);
  }

  /**
   * A concrete case that never settles: a complete operational file next to a recovery file
   * without its private key. Every load draws a new recovery key and writes nothing.
   */
  lemma StrippedRecoveryNeverSettles(key: Key, f: Fresh, g: Fresh, publicText: Key -> string)
    requires f.recoveryKey != g.recoveryKey
    ensures var record := Record("agent", "key-1", 1, "2026-01-01T00:00:00Z", "", PrivateText(key), Missing);
            var files := Files(Some(record), Keys([KeyItem("recovery-1", "", "")]));
            var (a, after) := Loaded(files, "agent", f, publicText);
            var (b, later) := Loaded(after, "agent", g, publicText);
            && a.Some? && b.Some? && after == files && later == files
            && a.value.recoveryKey != b.value.recoveryKey
  {
    hide ReadKey, PrivateText;
    PrivateTextReads(key);
  }

  /** Without an operational file a new identity is drawn; another agent's file, or a key that cannot be read, is refused. */
  lemma LoadReads(files: Files, agentId: string, draw: Fresh, publicText: Key -> string)
    ensures files.operational.None? ==>
              Loaded(files, agentId, draw, publicText).0 ==
              Some(Identity(agentId, draw.key, "key-" + draw.keyHex, 1, draw.now, "recovery-" + draw.recoveryHex, draw.recoveryKey))
    ensures files.operational.Some? && (files.operational.value.agentId != agentId
                                        || ReadKey(files.operational.value.privateKey).None?) ==>
              Loaded(files, agentId, draw, publicText) == (None, files)
    ensures files.operational.Some? && Loaded(files, agentId, draw, publicText).0.Some? ==>
              var record, id := files.operational.value, Loaded(files, agentId, draw, publicText).0.value;
              && id.agentId == record.agentId == agentId && ReadKey(record.privateKey) == Some(id.privateKey)
              && id.keyId == (if record.keyId == "" then "key-" + draw.keyHex else record.keyId)
              && id.revision == (if record.revision == 0 then 1 else record.revision)
              && id.createdAt == (if record.createdAt == "" then draw.now else record.createdAt)
    ensures files.operational.Some? && Loaded(files, agentId, draw, publicText).0.Some? ==>
              var record, id := files.operational.value, Loaded(files, agentId, draw, publicText).0.value;
              && (files.recovery.Keys? && files.recovery.items != [] ==> RecoversFrom(id, files.recovery.items[0], draw))
              && (!files.recovery.Keys? && record.recovery.Keys? && record.recovery.items != [] ==>
                    RecoversFrom(id, record.recovery.items[0], draw))
  {
    hide ReadKey, PrivateText;
  }

  /** The recovery key is the one of the item, or a drawn one if the item holds no private key. */
  predicate RecoversFrom(id: Identity, item: KeyItem, draw: Fresh) {
    if item.privateKey == "" then id.recoveryKey == draw.recoveryKey && id.recoveryKeyId == "recovery-" + draw.recoveryHex
    else
      ReadKey(item.privateKey) == Some(id.recoveryKey) &&
      id.recoveryKeyId == (if item.keyId == "" then "recovery-1" else item.keyId)
  }

  /**
   * After a successful load the operational file holds no recovery private key. What the load
   * wrote names each key by its own public text, and the private texts are those of the keys.
   */
  lemma LoadWrites(files: Files, agentId: string, draw: Fresh, publicText: Key -> string)
    requires Loaded(files, agentId, draw, publicText).0.Some?
    ensures var (found, after) := Loaded(files, agentId, draw, publicText);
            var id := found.value;
            && after.operational.Some?
            && (after.operational.value.recovery.Keys? ==>
                  forall i | 0 <= i < |after.operational.value.recovery.items| ::
                    after.operational.value.recovery.items[i].privateKey == "")
            && (after != files ==>
                  var record := after.operational.value;
                  && record.agentId == id.agentId && record.keyId == id.keyId && record.revision == id.revision
                  && record.createdAt == id.createdAt && record.publicKey == publicText(id.privateKey)
                  && ReadKey(record.privateKey) == Some(id.privateKey)
                  && (id.recoveryKeyId != "" ==>
                        record.recovery == Keys([KeyItem(id.recoveryKeyId, publicText(id.recoveryKey), "")]))
                  && after.recovery.Keys? && |after.recovery.items| == 1
                  && after.recovery.items[0].keyId == id.recoveryKeyId
                  && after.recovery.items[0].publicKey == publicText(id.recoveryKey)
                  && ReadKey(after.recovery.items[0].privateKey) == Some(id.recoveryKey))
  {
    hide ReadKey, PrivateText;
    var id := Loaded(files, agentId, draw, publicText).0.value;
    PrivateTextReads(id.privateKey);
    PrivateTextReads(id.recoveryKey);
  }

  datatype Load = Load(agentId: string, draw: Fresh)

  function LoadAll(files: Files, loads: seq<Load>, publicText: Key -> string): Files
    decreases |loads|
  {
    if loads == [] then files
    else LoadAll(Loaded(files, loads[0].agentId, loads[0].draw, publicText).1, loads[1..], publicText)
  }

  /** Over any run of loads, for whatever agents, an operational key once written stays. */
  lemma {:induction false} OperationalKeyStays(files: Files, loads: seq<Load>, publicText: Key -> string)
    requires files.operational.Some? && ReadKey(files.operational.value.privateKey).Some?
    ensures var after := LoadAll(files, loads, publicText);
            && after.operational.Some?
            && ReadKey(after.operational.value.privateKey) == ReadKey(files.operational.value.privateKey)
            && after.operational.value.agentId == files.operational.value.agentId
    decreases |loads|
  {
    hide ReadKey, PrivateText;
    if loads != [] {
      var (id, next) := Loaded(files, loads[0].agentId, loads[0].draw, publicText);
      if id.Some? {
        PrivateTextReads(id.value.privateKey);
      }
      OperationalKeyStays(next, loads[1..], publicText);
    }
  }

  /** Settled files stay as they are over any run of loads. */
  lemma {:induction false} SettledStays(files: Files, agentId: string, loads: seq<Load>, publicText: Key -> string)
    requires Settled(files, agentId)
    ensures LoadAll(files, loads, publicText) == files
    decreases |loads|
  {
    hide ReadKey, PrivateText;
    if loads != [] {
      assert Loaded(files, loads[0].agentId, loads[0].draw, publicText).1 == files;
      SettledStays(files, agentId, loads[1..], publicText);
    }
  }

  /** Splitting a combined file moves its first recovery key into the recovery file. */
  lemma SplittingKeepsRecoveryKey(files: Files, agentId: string, draw: Fresh, publicText: Key -> string)
    requires files.operational.Some? && files.operational.value.recovery.Keys? && files.recovery.Missing?
    requires files.operational.value.recovery.items != []
    requires files.operational.value.recovery.items[0].privateKey != ""
    requires Loaded(files, agentId, draw, publicText).0.Some?
    ensures var (id, after) := Loaded(files, agentId, draw, publicText);
            && ReadKey(files.operational.value.recovery.items[0].privateKey) == Some(id.value.recoveryKey)
            && after.recovery.Keys? && |after.recovery.items| == 1
            && ReadKey(after.recovery.items[0].privateKey) == Some(id.value.recoveryKey)
            && !Combined(after.operational.value)
  {
    hide ReadKey, PrivateText;
    PrivateTextReads(Loaded(files, agentId, draw, publicText).0.value.recoveryKey);
  }

  // ------------------------------------------------------------ key provider

  /** `InMemoryKeyProvider`. */
  class InMemoryKeyProvider {
    var secrets: map<string, Key>
    var current: string

    constructor ()
      ensures secrets == map[] && current == ""
    {
      secrets := map[];
      current := "";
    }

    method Add(keyId: string, key: Key, makeCurrent: bool)
      modifies this
      ensures secrets == old(secrets)[keyId := key]
      ensures current == if makeCurrent || old(current) == "" then keyId else old(current)
    {
      secrets := secrets[keyId := key];
      if makeCurrent || current == "" {
        current := keyId;
      }
    }

    /** `sign` over the object's digest: a signature that the key under the id verifies, if there is one. */
    function Sign(keyId: string, ms: seq<Member>, publicText: Key -> string, ff: FloatFormat): (r: Option<string>)
      reads this
      ensures r.Some? <==> keyId in secrets && SignedBytes(ms, ff).Success?
      ensures r.Some? ==> VerifyObject(publicText(secrets[keyId]), ms, r.value, ff) == Success(true)
    {
      Signed(secrets, keyId, ms, publicText, ff)
    }
  }

  function Signed(secrets: map<string, Key>, keyId: string, ms: seq<Member>, publicText: Key -> string, ff: FloatFormat):
    Option<string>
  {
    if keyId !in secrets then None
    else
      match SignObject(publicText(secrets[keyId]), ms, ff)
      case Success(signature) => Some(signature)
      case Failure(_) => None
  }

  /** The keys that `__post_init__` puts into the provider, the recovery key last. */
  function ProvidedKeys(id: Identity): map<string, Key> {
    map[id.keyId := id.privateKey][id.recoveryKeyId := id.recoveryKey]
  }

  method Provide(id: Identity) returns (provider: InMemoryKeyProvider)
    requires id.keyId != ""
    ensures fresh(provider) && provider.secrets == ProvidedKeys(id) && provider.current == id.keyId
  {
    provider := new InMemoryKeyProvider();
    provider.Add(id.keyId, id.privateKey, true);
    provider.Add(id.recoveryKeyId, id.recoveryKey, false);
  }

  /** `rotate`: a new identity and provider that take over the recovery key. */
  function Rotated(id: Identity, draw: Fresh): Identity {
    Generate(id.agentId, draw).(revision := id.revision + 1, recoveryKeyId := id.recoveryKeyId, recoveryKey := id.recoveryKey)
  }

  /** The keys in the rotated identity's provider. */
  function RotatedKeys(id: Identity, draw: Fresh): map<string, Key> {
    var keys := ProvidedKeys(Generate(id.agentId, draw));
    if id.recoveryKeyId == "" then keys else keys[id.recoveryKeyId := id.recoveryKey]
  }

  method Rotate(id: Identity, draw: Fresh) returns (next: Identity, provider: InMemoryKeyProvider)
    ensures next == Rotated(id, draw)
    ensures fresh(provider)
    ensures provider.secrets == RotatedKeys(id, draw)
  {
    next := Generate(id.agentId, draw);
    provider := Provide(next);
    next := next.(revision := id.revision + 1);
    next := next.(recoveryKeyId := id.recoveryKeyId);
    next := next.(recoveryKey := id.recoveryKey);
    if id.recoveryKeyId != "" {
      provider.Add(id.recoveryKeyId, id.recoveryKey, false);
    }
  }

  /** The keys that an identity signs with after a chain of rotations. */
  function RotatedAll(id: Identity, secrets: map<string, Key>, draws: seq<Fresh>): (Identity, map<string, Key>)
    decreases |draws|
  {
    if draws == [] then (id, secrets)
    else RotatedAll(Rotated(id, draws[0]), RotatedKeys(id, draws[0]), draws[1..])
  }

  /**
   * The identity's own public key verifies its signatures exactly when its recovery key does
   * not stand under the same id with other bytes.
   */
  lemma SignsAsItselfIff(id: Identity, ms: seq<Member>, publicText: Key -> string, ff: FloatFormat)
    requires forall k, k' | publicText(k) == publicText(k') :: k == k'
    requires SignedBytes(ms, ff).Success?
    ensures Signed(ProvidedKeys(id), id.keyId, ms, publicText, ff).Some?
    ensures VerifyObject(publicText(id.privateKey), ms, Signed(ProvidedKeys(id), id.keyId, ms, publicText, ff).value, ff)
            == Success(id.recoveryKeyId != id.keyId || id.recoveryKey == id.privateKey)
  {
    var key := ProvidedKeys(id)[id.keyId];
    var bytes := SignedBytes(ms, ff).value;
    if SignatureText(publicText(key), bytes) == SignatureText(publicText(id.privateKey), bytes) {
      SignatureTextInjective(publicText(key), bytes, publicText(id.privateKey), bytes);
    }
  }

  /**
   * Along every chain of rotations that starts from a generated identity, the revision counts
   * them, the agent and the recovery key stay, and the identity's signatures verify under its
   * own, current public key.
   */
  lemma RotationsSignAsThemselves(agentId: string, first: Fresh, draws: seq<Fresh>, ms: seq<Member>,
                                  publicText: Key -> string, ff: FloatFormat)
    requires SignedBytes(ms, ff).Success?
    ensures var start := Generate(agentId, first);
            var (id, secrets) := RotatedAll(start, ProvidedKeys(start), draws);
            && id.agentId == agentId && id.revision == 1 + |draws|
            && id.recoveryKeyId == start.recoveryKeyId && id.recoveryKey == start.recoveryKey
            && id.privateKey == (if draws == [] then first.key else draws[|draws| - 1].key)
            && Signed(secrets, id.keyId, ms, publicText, ff).Some?
            && VerifyObject(publicText(id.privateKey), ms, Signed(secrets, id.keyId, ms, publicText, ff).value, ff)
               == Success(true)
  {
    hide SignObject, VerifyObject, SignedBytes, Signed;
    var start := Generate(agentId, first);
    OperationalId(first.keyHex, first.recoveryHex);
    RotationKeeps(start, ProvidedKeys(start), draws);
    var (id, secrets) := RotatedAll(start, ProvidedKeys(start), draws);
    HolderSigns(id, secrets, ms, publicText, ff);
  }

  lemma HolderSigns(id: Identity, secrets: map<string, Key>, ms: seq<Member>, publicText: Key -> string, ff: FloatFormat)
    requires Holds(id, secrets) && SignedBytes(ms, ff).Success?
    ensures Signed(secrets, id.keyId, ms, publicText, ff).Some?
    ensures VerifyObject(publicText(id.privateKey), ms, Signed(secrets, id.keyId, ms, publicText, ff).value, ff) == Success(true)
  {
  }

  lemma OperationalId(keyHex: string, recoveryHex: string)
    ensures "key-" + keyHex != "recovery-" + recoveryHex
  {
    assert ("key-" + keyHex)[0] == 'k' && ("recovery-" + recoveryHex)[0] == 'r';
  }

  /** An identity whose provider holds its own operational key under its id. */
  predicate Holds(id: Identity, secrets: map<string, Key>) {
    id.keyId in secrets && secrets[id.keyId] == id.privateKey
  }

  lemma {:induction false} RotationKeeps(id: Identity, secrets: map<string, Key>, draws: seq<Fresh>)
    requires Holds(id, secrets) && id.recoveryKeyId != "" && id.recoveryKeyId[0] == 'r'
    ensures var (last, keys) := RotatedAll(id, secrets, draws);
            && Holds(last, keys) && last.agentId == id.agentId && last.revision == id.revision + |draws|
            && last.recoveryKeyId == id.recoveryKeyId && last.recoveryKey == id.recoveryKey
            && last.privateKey == (if draws == [] then id.privateKey else draws[|draws| - 1].key)
    decreases |draws|
  {
    if draws != [] {
      var next := Rotated(id, draws[0]);
      var keys := RotatedKeys(id, draws[0]);
      OperationalId(draws[0].keyHex, draws[0].recoveryHex);
      assert next.keyId[0] == 'k';
      RotationKeeps(next, keys, draws[1..]);
    }
  }
}
