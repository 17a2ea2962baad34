/** The typed view of the configuration document, and writing it back (`config.ts`). */
module TomlConfig {
  import opened Wrappers
  import opened TomlCodec

  datatype VaultSection = VaultSection(
    id: Option<string>, name: Option<string>, rendezvousUrl: Option<string>, hubPubkey: Option<string>)

  datatype IdentitySection = IdentitySection(path: Option<string>, agentSocket: Option<string>, agentPubkey: Option<string>)

  datatype SyncSection = SyncSection(
    extensions: seq<string>, included: seq<string>,
    attachmentMaxBytes: int, textFileMaxBytes: int, logRetentionDays: int)

  datatype Config = Config(vault: VaultSection, identity: IdentitySection, sync: SyncSection)

  const DEFAULT_SYNC := SyncSection(["md", "markdown"], [], 10 * 1024 * 1024, 1024 * 1024, 30)

  // ---- Lookups ----

  function TableOf(doc: TomlDoc, name: string): Option<seq<Entry>> {
    if doc == [] then None else if doc[0].name == name then Some(doc[0].table) else TableOf(doc[1..], name)
  }

  function Find(table: seq<Entry>, key: string): Option<Value> {
    if table == [] then None else if table[0].key == key then Some(table[0].value) else Find(table[1..], key)
  }

  function Get(doc: TomlDoc, name: string, key: string): Option<Value> {
    match TableOf(doc, name)
    case Some(t) => Find(t, key)
    case None => None
  }

  function StrOf(v: Option<Value>): Option<string> {
    if v.Some? && v.value.Str? then Some(v.value.s) else None
  }

  function StrArr(v: Option<Value>, fallback: seq<string>): seq<string> {
    if v.Some? && v.value.Arr? then v.value.items else fallback
  }

  function IntOf(v: Option<Value>, fallback: int): int {
    if v.Some? && v.value.Int? then v.value.n else fallback
  }

  /** The schema as found in a parsed document, defaults filled in. */
  function ConfigFromDoc(doc: TomlDoc): Config {
    Config(
      VaultSection(StrOf(Get(doc, "vault", "id")), StrOf(Get(doc, "vault", "name")),
                   StrOf(Get(doc, "vault", "rendezvous_url")), StrOf(Get(doc, "vault", "hub_pubkey"))),
      IdentitySection(StrOf(Get(doc, "identity", "path")), StrOf(Get(doc, "identity", "agent_socket")),
                      StrOf(Get(doc, "identity", "agent_pubkey"))),
      SyncSection(
        StrArr(Get(doc, "sync", "extensions"), DEFAULT_SYNC.extensions),
        StrArr(Get(doc, "sync", "include"), DEFAULT_SYNC.included),
        IntOf(Get(doc, "sync", "attachment_max_bytes"), DEFAULT_SYNC.attachmentMaxBytes),
        IntOf(Get(doc, "sync", "text_file_max_bytes"), DEFAULT_SYNC.textFileMaxBytes),
        IntOf(Get(doc, "sync", "log_retention_days"), DEFAULT_SYNC.logRetentionDays)))
  }

  /** An optional string is there exactly if a string is set. */
  predicate Shows(v: Option<Value>, r: Option<string>) {
    match v
    case Some(Str(s)) => r == Some(s)
    case _ => r == None
  }

  predicate ShowsList(v: Option<Value>, r: seq<string>, otherwise: seq<string>) {
    match v
    case Some(Arr(items)) => r == items
    case _ => r == otherwise
  }

  predicate ShowsNumber(v: Option<Value>, r: int, otherwise: int) {
    match v
    case Some(Int(n)) => r == n
    case _ => r == otherwise
  }

  /** Each field shows what its key holds; with nothing there, or a value of another kind, it is absent or the default. */
  lemma FieldsExactly(doc: TomlDoc)
    ensures var c := ConfigFromDoc(doc);
      && Shows(Get(doc, "vault", "id"), c.vault.id) && Shows(Get(doc, "vault", "name"), c.vault.name)
      && Shows(Get(doc, "vault", "rendezvous_url"), c.vault.rendezvousUrl)
      && Shows(Get(doc, "vault", "hub_pubkey"), c.vault.hubPubkey)
      && Shows(Get(doc, "identity", "path"), c.identity.path)
      && Shows(Get(doc, "identity", "agent_socket"), c.identity.agentSocket)
      && Shows(Get(doc, "identity", "agent_pubkey"), c.identity.agentPubkey)
      && ShowsList(Get(doc, "sync", "extensions"), c.sync.extensions, ["md", "markdown"])
      && ShowsList(Get(doc, "sync", "include"), c.sync.included, [])
      && ShowsNumber(Get(doc, "sync", "attachment_max_bytes"), c.sync.attachmentMaxBytes, 10485760)
      && ShowsNumber(Get(doc, "sync", "text_file_max_bytes"), c.sync.textFileMaxBytes, 1048576)
      && ShowsNumber(Get(doc, "sync", "log_retention_days"), c.sync.logRetentionDays, 30)
  {
  }

  // ---- Updates ----

  function Without(table: seq<Entry>, key: string): seq<Entry> {
    if table == [] then []
    else if table[0].key == key then Without(table[1..], key)
    else [table[0]] + Without(table[1..], key)
  }

  function DeleteIn(doc: TomlDoc, name: string, key: string): TomlDoc {
    if doc == [] then []
    else if doc[0].name == name then [doc[0].(table := Without(doc[0].table, key))] + doc[1..]
    else [doc[0]] + DeleteIn(doc[1..], name, key)
  }

  /** One optional field: set, or removed when absent or empty. */
  function PutField(doc: TomlDoc, name: string, key: string, v: Option<string>): TomlDoc {
    var there := EnsureSection(doc, name);
    if v.None? || v.value == "" then DeleteIn(there, name, key) else PutIn(there, name, key, Str(v.value))
  }

  /** The keys the schema knows. */
  const SCHEMA: set<(string, string)> := {
    ("vault", "id"), ("vault", "name"), ("vault", "rendezvous_url"), ("vault", "hub_pubkey"),
    ("identity", "path"), ("identity", "agent_socket"), ("identity", "agent_pubkey"),
    ("sync", "extensions"), ("sync", "include"), ("sync", "attachment_max_bytes"),
    ("sync", "text_file_max_bytes"), ("sync", "log_retention_days")
  }

  function UnknownEntries(name: string, table: seq<Entry>): seq<Entry> {
    if table == [] then []
    else if (name, table[0].key) in SCHEMA then UnknownEntries(name, table[1..])
    else [table[0]] + UnknownEntries(name, table[1..])
  }

  /** The document without anything the schema knows, sections and order kept. */
  function Unknown(doc: TomlDoc): TomlDoc {
    if doc == [] then [] else [Section(doc[0].name, UnknownEntries(doc[0].name, doc[0].table))] + Unknown(doc[1..])
  }

  predicate Has(doc: TomlDoc, name: string) {
    TableOf(doc, name).Some?
  }

  /** The schema's sections, in canonical order, where they are missing. */
  function WithSections(doc: TomlDoc): TomlDoc {
    EnsureSection(EnsureSection(EnsureSection(doc, "vault"), "identity"), "sync")
  }

  // ---- How updates and lookups interact ----

  lemma {:induction false} FindPut(table: seq<Entry>, key: string, v: Value, other: string)
    ensures Find(Put(table, key, v), other) == if other == key then Some(v) else Find(table, other)
  {
    if table != [] && table[0].key != key {
      FindPut(table[1..], key, v, other);
    }
  }

  lemma {:induction false} FindWithout(table: seq<Entry>, key: string, other: string)
    ensures Find(Without(table, key), other) == if other == key then None else Find(table, other)
  {
    if table != [] {
      FindWithout(table[1..], key, other);
    }
  }

  lemma {:induction false} UnknownPut(name: string, table: seq<Entry>, key: string, v: Value)
    requires (name, key) in SCHEMA
    ensures UnknownEntries(name, Put(table, key, v)) == UnknownEntries(name, table)
  {
    if table != [] && table[0].key != key {
      UnknownPut(name, table[1..], key, v);
    }
  }

  lemma {:induction false} UnknownWithout(name: string, table: seq<Entry>, key: string)
    requires (name, key) in SCHEMA
    ensures UnknownEntries(name, Without(table, key)) == UnknownEntries(name, table)
  {
    if table != [] {
      UnknownWithout(name, table[1..], key);
    }
  }

  lemma {:induction false} AfterPutIn(doc: TomlDoc, name: string, key: string, v: Value)
    requires Has(doc, name) && (name, key) in SCHEMA
    ensures forall n, k :: Get(PutIn(doc, name, key, v), n, k) == if n == name && k == key then Some(v) else Get(doc, n, k)
    ensures forall n :: Has(PutIn(doc, name, key, v), n) == Has(doc, n)
    ensures Unknown(PutIn(doc, name, key, v)) == Unknown(doc)
  {
    if doc[0].name == name {
      forall k ensures Find(Put(doc[0].table, key, v), k) == if k == key then Some(v) else Find(doc[0].table, k) {
        FindPut(doc[0].table, key, v, k);
      }
      UnknownPut(name, doc[0].table, key, v);
    } else {
      AfterPutIn(doc[1..], name, key, v);
      TailLookups(doc, PutIn(doc[1..], name, key, v));
    }
  }

  lemma {:induction false} AfterDeleteIn(doc: TomlDoc, name: string, key: string)
    requires Has(doc, name) && (name, key) in SCHEMA
    ensures forall n, k :: Get(DeleteIn(doc, name, key), n, k) == if n == name && k == key then None else Get(doc, n, k)
    ensures forall n :: Has(DeleteIn(doc, name, key), n) == Has(doc, n)
    ensures Unknown(DeleteIn(doc, name, key)) == Unknown(doc)
  {
    if doc[0].name == name {
      forall k ensures Find(Without(doc[0].table, key), k) == if k == key then None else Find(doc[0].table, k) {
        FindWithout(doc[0].table, key, k);
      }
      UnknownWithout(name, doc[0].table, key);
    } else {
      AfterDeleteIn(doc[1..], name, key);
      TailLookups(doc, DeleteIn(doc[1..], name, key));
    }
  }

  /** Looking past the first section. */
  lemma TailLookups(doc: TomlDoc, rest: TomlDoc)
    requires doc != []
    ensures forall n, k :: Get([doc[0]] + rest, n, k) == if n == doc[0].name then Find(doc[0].table, k) else Get(rest, n, k)
    ensures forall n, k :: Get(doc, n, k) == if n == doc[0].name then Find(doc[0].table, k) else Get(doc[1..], n, k)
    ensures forall n :: Has([doc[0]] + rest, n) == (n == doc[0].name || Has(rest, n))
    ensures forall n :: Has(doc, n) == (n == doc[0].name || Has(doc[1..], n))
  {
    assert ([doc[0]] + rest)[1..] == rest;
  }

  lemma {:induction false} AfterEnsure(doc: TomlDoc, name: string)
    ensures Has(EnsureSection(doc, name), name)
    ensures forall n :: n != name ==> Has(EnsureSection(doc, name), n) == Has(doc, n)
    ensures forall n, k :: Get(EnsureSection(doc, name), n, k) == Get(doc, n, k)
    ensures Unknown(EnsureSection(doc, name)) == EnsureSection(Unknown(doc), name)
    ensures Has(doc, name) ==> EnsureSection(doc, name) == doc
  {
    if doc == [] {
      assert [Section(name, [])][1..] == [];
    } else if doc[0].name != name {
      AfterEnsure(doc[1..], name);
      TailLookups(doc, EnsureSection(doc[1..], name));
    }
  }

  /** One `put` of the original on a document that has its section. */
  lemma AfterPutField(doc: TomlDoc, name: string, key: string, v: Option<string>)
    requires Has(doc, name) && (name, key) in SCHEMA
    ensures forall n, k :: Get(PutField(doc, name, key, v), n, k) ==
              if n == name && k == key then (if v.None? || v.value == "" then None else Some(Str(v.value))) else Get(doc, n, k)
    ensures forall n :: Has(PutField(doc, name, key, v), n) == Has(doc, n)
    ensures Unknown(PutField(doc, name, key, v)) == Unknown(doc)
  {
    AfterEnsure(doc, name);
    if v.None? || v.value == "" {
      AfterDeleteIn(doc, name, key);
    } else {
      AfterPutIn(doc, name, key, Str(v.value));
    }
  }

  // ---- Writing the schema back ----

  function NonEmpty(v: Option<string>): Option<string> {
    if v == Some("") then None else v
  }

  /** The configuration with its empty optional fields left out. */
  function Compact(c: Config): Config {
    Config(
      VaultSection(NonEmpty(c.vault.id), NonEmpty(c.vault.name), NonEmpty(c.vault.rendezvousUrl), NonEmpty(c.vault.hubPubkey)),
      IdentitySection(NonEmpty(c.identity.path), NonEmpty(c.identity.agentSocket), NonEmpty(c.identity.agentPubkey)),
      c.sync)
  }

  function WithVault(v: VaultSection, doc: TomlDoc): TomlDoc {
    PutField(PutField(PutField(PutField(doc,
      "vault", "id", v.id), "vault", "name", v.name), "vault", "rendezvous_url", v.rendezvousUrl), "vault", "hub_pubkey", v.hubPubkey)
  }

  function WithIdentity(v: IdentitySection, doc: TomlDoc): TomlDoc {
    PutField(PutField(PutField(doc,
      "identity", "path", v.path), "identity", "agent_socket", v.agentSocket), "identity", "agent_pubkey", v.agentPubkey)
  }

  function WithSync(v: SyncSection, doc: TomlDoc): TomlDoc {
    PutIn(PutIn(PutIn(PutIn(PutIn(doc,
      "sync", "extensions", Arr(v.extensions)), "sync", "include", Arr(v.included)),
      "sync", "attachment_max_bytes", Int(v.attachmentMaxBytes)), "sync", "text_file_max_bytes", Int(v.textFileMaxBytes)),
      "sync", "log_retention_days", Int(v.logRetentionDays))
  }

  /** The updates of the write-back, one after the other. */
  function Applied(cfg: Config, base: TomlDoc): TomlDoc {
    WithSync(cfg.sync, WithIdentity(cfg.identity, WithVault(cfg.vault, WithSections(base))))
  }

  /** The step invariant of the write-back: sections present, unknown content as in `base`. */
  ghost predicate Keeps(doc: TomlDoc, base: TomlDoc) {
    && Has(doc, "vault") && Has(doc, "identity") && Has(doc, "sync")
    && Unknown(doc) == WithSections(Unknown(base))
    && forall n, k :: (n, k) !in SCHEMA ==> Get(doc, n, k) == Get(base, n, k)
  }

  /**
   * Write `cfg` over `base`: reading the result gives the configuration back but for empty
   * optional fields, and everything the schema does not know is untouched and in its place.
   */
  method ApplyConfigToDoc(cfg: Config, base: TomlDoc) returns (doc: TomlDoc)
    ensures doc == Applied(cfg, base)
    ensures ConfigFromDoc(doc) == Compact(cfg)
    ensures Unknown(doc) == WithSections(Unknown(base))
    ensures forall n, k :: (n, k) !in SCHEMA ==> Get(doc, n, k) == Get(base, n, k)
  {
    doc := EnsureSections(base);
    doc := ApplyVault(cfg.vault, doc, base);
    ghost var vault := doc;
    doc := ApplyIdentity(cfg.identity, doc, base);
    ghost var identity := doc;
    doc := ApplySync(cfg.sync, doc, base);
    assert forall k :: Get(doc, "vault", k) == Get(identity, "vault", k) == Get(vault, "vault", k);
  }

  method EnsureSections(base: TomlDoc) returns (doc: TomlDoc)
    ensures Keeps(doc, base) && doc == WithSections(base)
  {
    AfterEnsure(base, "vault");
    doc := EnsureSection(base, "vault");
    AfterEnsure(doc, "identity");
    doc := EnsureSection(doc, "identity");
    AfterEnsure(doc, "sync");
    doc := EnsureSection(doc, "sync");
  }

  method ApplyVault(v: VaultSection, start: TomlDoc, ghost base: TomlDoc) returns (doc: TomlDoc)
    requires Keeps(start, base)
    ensures Keeps(doc, base) && doc == WithVault(v, start)
    ensures StrOf(Get(doc, "vault", "id")) == NonEmpty(v.id)
    ensures StrOf(Get(doc, "vault", "name")) == NonEmpty(v.name)
    ensures StrOf(Get(doc, "vault", "rendezvous_url")) == NonEmpty(v.rendezvousUrl)
    ensures StrOf(Get(doc, "vault", "hub_pubkey")) == NonEmpty(v.hubPubkey)
  {
    doc := ApplyField("vault", "id", v.id, start, base);
    doc := ApplyField("vault", "name", v.name, doc, base);
    doc := ApplyField("vault", "rendezvous_url", v.rendezvousUrl, doc, base);
    doc := ApplyField("vault", "hub_pubkey", v.hubPubkey, doc, base);
  }

  method ApplyIdentity(v: IdentitySection, start: TomlDoc, ghost base: TomlDoc) returns (doc: TomlDoc)
    requires Keeps(start, base)
    ensures Keeps(doc, base) && doc == WithIdentity(v, start)
    ensures StrOf(Get(doc, "identity", "path")) == NonEmpty(v.path)
    ensures StrOf(Get(doc, "identity", "agent_socket")) == NonEmpty(v.agentSocket)
    ensures StrOf(Get(doc, "identity", "agent_pubkey")) == NonEmpty(v.agentPubkey)
    ensures forall n, k :: n != "identity" ==> Get(doc, n, k) == Get(start, n, k)
  {
    doc := ApplyField("identity", "path", v.path, start, base);
    doc := ApplyField("identity", "agent_socket", v.agentSocket, doc, base);
    doc := ApplyField("identity", "agent_pubkey", v.agentPubkey, doc, base);
  }

  method ApplyField(name: string, key: string, v: Option<string>, start: TomlDoc, ghost base: TomlDoc) returns (doc: TomlDoc)
    requires Keeps(start, base) && (name, key) in SCHEMA && Has(start, name)
    ensures Keeps(doc, base) && doc == PutField(start, name, key, v)
    ensures StrOf(Get(doc, name, key)) == NonEmpty(v)
    ensures forall n, k :: n != name || k != key ==> Get(doc, n, k) == Get(start, n, k)
  {
    AfterPutField(start, name, key, v);
    doc := PutField(start, name, key, v);
  }

  method ApplyValue(name: string, key: string, v: Value, start: TomlDoc, ghost base: TomlDoc) returns (doc: TomlDoc)
    requires Keeps(start, base) && (name, key) in SCHEMA && Has(start, name)
    ensures Keeps(doc, base) && doc == PutIn(start, name, key, v)
    ensures Get(doc, name, key) == Some(v)
    ensures forall n, k :: n != name || k != key ==> Get(doc, n, k) == Get(start, n, k)
  {
    AfterPutIn(start, name, key, v);
    doc := PutIn(start, name, key, v);
  }

  method ApplySync(v: SyncSection, start: TomlDoc, ghost base: TomlDoc) returns (doc: TomlDoc)
    requires Keeps(start, base)
    ensures Keeps(doc, base) && doc == WithSync(v, start)
    ensures Get(doc, "sync", "extensions") == Some(Arr(v.extensions))
    ensures Get(doc, "sync", "include") == Some(Arr(v.included))
    ensures Get(doc, "sync", "attachment_max_bytes") == Some(Int(v.attachmentMaxBytes))
    ensures Get(doc, "sync", "text_file_max_bytes") == Some(Int(v.textFileMaxBytes))
    ensures Get(doc, "sync", "log_retention_days") == Some(Int(v.logRetentionDays))
    ensures forall n, k :: n != "sync" ==> Get(doc, n, k) == Get(start, n, k)
  {
    doc := ApplyValue("sync", "extensions", Arr(v.extensions), start, base);
    doc := ApplyValue("sync", "include", Arr(v.included), doc, base);
    doc := ApplyValue("sync", "attachment_max_bytes", Int(v.attachmentMaxBytes), doc, base);
    doc := ApplyValue("sync", "text_file_max_bytes", Int(v.textFileMaxBytes), doc, base);
    doc := ApplyValue("sync", "log_retention_days", Int(v.logRetentionDays), doc, base);
  }
}
