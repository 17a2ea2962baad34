/** The configuration file end to end: typed configuration, document, text and back (`config.ts`). */
module TomlFile {
  import opened Wrappers
  import opened TomlText
  import opened TomlArrays
  import opened TomlCodec
  import opened TomlKeys
  import opened TomlRoundTrip
  import opened TomlConfig

  // ---- Updates keep a document printable ----

  lemma FrontEntryIsOk(first: Entry, rest: seq<Entry>)
    requires TableOk(rest) && KeyOk(first.key) && ValueOk(first.value)
    requires forall e :: e in rest ==> e.key != first.key
    ensures TableOk([first] + rest)
  {
    var all := [first] + rest;
    forall i | 0 < i < |all| ensures all[i] == rest[i - 1] && all[i].key != first.key {
      assert rest[i - 1] in rest;
    }
  }

  lemma TableTailIsOk(table: seq<Entry>)
    requires TableOk(table) && table != []
    ensures TableOk(table[1..]) && forall e :: e in table[1..] ==> e in table && e.key != table[0].key
  {
    var rest := table[1..];
    assert forall i :: 0 <= i < |rest| ==> rest[i] == table[i + 1];
  }

  lemma {:induction false} PutKeepsTable(table: seq<Entry>, key: string, v: Value)
    requires TableOk(table) && KeyOk(key) && ValueOk(v)
    ensures TableOk(Put(table, key, v))
    ensures forall e :: e in Put(table, key, v) ==> e.key == key || exists d :: d in table && d.key == e.key
  {
    if table != [] && table[0].key != key {
      var rest := table[1..];
      TableTailIsOk(table);
      PutKeepsTable(rest, key, v);
      FrontEntryIsOk(table[0], Put(rest, key, v));
    } else if table != [] {
      TableTailIsOk(table);
      FrontEntryIsOk(Entry(key, v), table[1..]);
    }
  }

  lemma {:induction false} WithoutKeepsTable(table: seq<Entry>, key: string)
    requires TableOk(table)
    ensures TableOk(Without(table, key)) && forall e :: e in Without(table, key) ==> e in table
  {
    if table != [] {
      var rest := table[1..];
      TableTailIsOk(table);
      WithoutKeepsTable(rest, key);
      FrontEntryIsOk(table[0], Without(rest, key));
    }
  }

  /** Replacing the table of one section by a printable one. */
  ghost predicate SameNames(doc: TomlDoc, doc': TomlDoc) {
    |doc| == |doc'| && forall i :: 0 <= i < |doc| ==> doc[i].name == doc'[i].name
  }

  lemma {:induction false} PutInKeepsDoc(doc: TomlDoc, name: string, key: string, v: Value)
    requires DocOk(doc) && KeyOk(key) && ValueOk(v)
    ensures DocOk(PutIn(doc, name, key, v)) && SameNames(doc, PutIn(doc, name, key, v))
  {
    if doc != [] {
      if doc[0].name == name {
        PutKeepsTable(doc[0].table, key, v);
      } else {
        TailIsOk(doc);
        PutInKeepsDoc(doc[1..], name, key, v);
        HeadStaysOk(doc, PutIn(doc[1..], name, key, v));
      }
    }
  }

  lemma {:induction false} DeleteInKeepsDoc(doc: TomlDoc, name: string, key: string)
    requires DocOk(doc)
    ensures DocOk(DeleteIn(doc, name, key)) && SameNames(doc, DeleteIn(doc, name, key))
  {
    if doc != [] {
      if doc[0].name == name {
        WithoutKeepsTable(doc[0].table, key);
      } else {
        TailIsOk(doc);
        DeleteInKeepsDoc(doc[1..], name, key);
        HeadStaysOk(doc, DeleteIn(doc[1..], name, key));
      }
    }
  }

  lemma TailIsOk(doc: TomlDoc)
    requires DocOk(doc) && doc != []
    ensures DocOk(doc[1..])
  {
    var rest := doc[1..];
    assert forall i :: 0 <= i < |rest| ==> rest[i] == doc[i + 1];
  }

  lemma HeadStaysOk(doc: TomlDoc, rest: TomlDoc)
    requires DocOk(doc) && doc != [] && DocOk(rest) && SameNames(doc[1..], rest)
    ensures DocOk([doc[0]] + rest) && SameNames(doc, [doc[0]] + rest)
  {
    var all := [doc[0]] + rest;
    forall i | 0 < i < |all| ensures all[i] == rest[i - 1] && all[i].name == doc[i].name {
      assert doc[1..][i - 1] == doc[i];
    }
  }

  lemma {:induction false} EnsureKeepsDoc(doc: TomlDoc, name: string)
    requires DocOk(doc) && NameOk(name)
    ensures DocOk(EnsureSection(doc, name))
    ensures forall s :: s in EnsureSection(doc, name) ==> s in doc || s == Section(name, [])
  {
    if doc != [] && doc[0].name != name {
      TailIsOk(doc);
      EnsureKeepsDoc(doc[1..], name);
      var rest := EnsureSection(doc[1..], name);
      forall s | s in rest ensures s.name != doc[0].name {
        if s in doc[1..] {
          var k :| 0 <= k < |doc[1..]| && doc[1..][k] == s;
          assert doc[k + 1] == s;
        }
      }
      assert doc[0] in doc && forall s :: s in doc[1..] ==> s in doc;
      FrontIsOk(doc[0], rest);
    }
  }

  lemma FrontIsOk(first: Section, rest: TomlDoc)
    requires DocOk(rest) && TableOk(first.table) && (first.name != "" ==> NameOk(first.name))
    requires forall s :: s in rest ==> s.name != first.name
    ensures DocOk([first] + rest)
  {
    var all := [first] + rest;
    forall i | 0 < i < |all| ensures all[i] == rest[i - 1] && all[i].name != first.name {
      assert rest[i - 1] in rest;
    }
  }

  // ---- The schema is printable ----

  predicate Letters(s: string) {
    s != "" && forall i :: 0 <= i < |s| ==> 'a' <= s[i] <= 'z' || s[i] == '_'
  }

  lemma LettersAreOk(s: string)
    requires Letters(s)
    ensures KeyOk(s) && NameOk(s)
  {
    assert !IsSpace(s[0]) && !IsSpace(s[|s| - 1]);
    PlainQuotes(s, 0);
    var line := "[" + s + "]";
    forall j | 0 <= j < |line| ensures line[j] != '"' && line[j] != '#' {
      assert 0 < j < |line| - 1 ==> line[j] == s[j - 1];
    }
    CutPastPlain(line, 0, |line|);
  }

  lemma SchemaIsLetters(name: string, key: string)
    requires (name, key) in SCHEMA
    ensures Letters(name) && Letters(key)
  {
    if name == "vault" {
      VaultKeys(key);
    } else if name == "identity" {
      IdentityKeys(key);
    } else {
      SyncKeys(key);
    }
  }

  lemma VaultKeys(key: string)
    requires key == "id" || key == "name" || key == "rendezvous_url" || key == "hub_pubkey"
    ensures Letters("vault") && Letters(key)
  {
  }

  lemma IdentityKeys(key: string)
    requires key == "path" || key == "agent_socket" || key == "agent_pubkey"
    ensures Letters("identity") && Letters(key)
  {
  }

  lemma SyncKeys(key: string)
    requires key == "extensions" || key == "include" || key == "attachment_max_bytes" || key == "text_file_max_bytes"
      || key == "log_retention_days"
    ensures Letters("sync") && Letters(key)
  {
  }

  /** One update the schema makes keeps a document printable. */
  lemma SchemaPut(doc: TomlDoc, name: string, key: string, v: Value)
    requires DocOk(doc) && (name, key) in SCHEMA && ValueOk(v)
    ensures DocOk(PutIn(doc, name, key, v))
  {
    SchemaIsLetters(name, key);
    LettersAreOk(key);
    PutInKeepsDoc(doc, name, key, v);
  }

  lemma SchemaPutField(doc: TomlDoc, name: string, key: string, v: Option<string>)
    requires DocOk(doc) && (name, key) in SCHEMA
    ensures DocOk(PutField(doc, name, key, v))
  {
    SchemaIsLetters(name, key);
    LettersAreOk(name);
    EnsureKeepsDoc(doc, name);
    if v.None? || v.value == "" {
      DeleteInKeepsDoc(EnsureSection(doc, name), name, key);
    } else {
      SchemaPut(EnsureSection(doc, name), name, key, Str(v.value));
    }
  }

  lemma SectionsAreOk(base: TomlDoc)
    requires DocOk(base)
    ensures DocOk(WithSections(base))
  {
    assert ("vault", "id") in SCHEMA && ("identity", "path") in SCHEMA && ("sync", "include") in SCHEMA;
    SchemaIsLetters("vault", "id");
    SchemaIsLetters("identity", "path");
    SchemaIsLetters("sync", "include");
    LettersAreOk("vault");
    LettersAreOk("identity");
    LettersAreOk("sync");
    EnsureKeepsDoc(base, "vault");
    EnsureKeepsDoc(EnsureSection(base, "vault"), "identity");
    EnsureKeepsDoc(EnsureSection(EnsureSection(base, "vault"), "identity"), "sync");
  }

  lemma VaultIsOk(v: VaultSection, doc: TomlDoc)
    requires DocOk(doc)
    ensures DocOk(WithVault(v, doc))
  {
    SchemaPutField(doc, "vault", "id", v.id);
    var d1 := PutField(doc, "vault", "id", v.id);
    SchemaPutField(d1, "vault", "name", v.name);
    var d2 := PutField(d1, "vault", "name", v.name);
    SchemaPutField(d2, "vault", "rendezvous_url", v.rendezvousUrl);
    SchemaPutField(PutField(d2, "vault", "rendezvous_url", v.rendezvousUrl), "vault", "hub_pubkey", v.hubPubkey);
  }

  lemma IdentityIsOk(v: IdentitySection, doc: TomlDoc)
    requires DocOk(doc)
    ensures DocOk(WithIdentity(v, doc))
  {
    SchemaPutField(doc, "identity", "path", v.path);
    var d1 := PutField(doc, "identity", "path", v.path);
    SchemaPutField(d1, "identity", "agent_socket", v.agentSocket);
    SchemaPutField(PutField(d1, "identity", "agent_socket", v.agentSocket), "identity", "agent_pubkey", v.agentPubkey);
  }

  lemma SyncIsOk(v: SyncSection, doc: TomlDoc)
    requires DocOk(doc) && SyncOk(v)
    ensures DocOk(WithSync(v, doc))
  {
    SchemaPut(doc, "sync", "extensions", Arr(v.extensions));
    var d1 := PutIn(doc, "sync", "extensions", Arr(v.extensions));
    SchemaPut(d1, "sync", "include", Arr(v.included));
    var d2 := PutIn(d1, "sync", "include", Arr(v.included));
    SchemaPut(d2, "sync", "attachment_max_bytes", Int(v.attachmentMaxBytes));
    var d3 := PutIn(d2, "sync", "attachment_max_bytes", Int(v.attachmentMaxBytes));
    SchemaPut(d3, "sync", "text_file_max_bytes", Int(v.textFileMaxBytes));
    SchemaPut(PutIn(d3, "sync", "text_file_max_bytes", Int(v.textFileMaxBytes)), "sync", "log_retention_days", Int(v.logRetentionDays));
  }

  /** What the document codec asks of a configuration: arrays that read back and safe integers. */
  predicate SyncOk(v: SyncSection) {
    && Faithful(v.extensions) && Faithful(v.included)
    && ValueOk(Int(v.attachmentMaxBytes)) && ValueOk(Int(v.textFileMaxBytes)) && ValueOk(Int(v.logRetentionDays))
  }

  /** Writing a configuration over a printable document gives a printable document. */
  lemma AppliedIsOk(cfg: Config, base: TomlDoc)
    requires DocOk(base) && SyncOk(cfg.sync)
    ensures DocOk(Applied(cfg, base))
  {
    SectionsAreOk(base);
    VaultIsOk(cfg.vault, WithSections(base));
    IdentityIsOk(cfg.identity, WithVault(cfg.vault, WithSections(base)));
    SyncIsOk(cfg.sync, WithIdentity(cfg.identity, WithVault(cfg.vault, WithSections(base))));
  }

  // ---- Looking into the parsed document ----

  lemma {:induction false} OthersLookup(doc: TomlDoc, n: string, k: string)
    requires n != ""
    ensures Get(Others(doc), n, k) == Get(doc, n, k)
  {
    if doc != [] {
      OthersLookup(doc[1..], n, k);
      if doc[0].name != "" {
        assert Others(doc)[1..] == Others(doc[1..]);
      }
    }
  }

  lemma {:induction false} RootLookup(doc: TomlDoc, k: string)
    ensures Find(Root(doc), k) == Get(doc, "", k)
  {
    if doc != [] && doc[0].name != "" {
      RootLookup(doc[1..], k);
    }
  }

  /** Putting the root first changes no lookup. */
  lemma RootFirstLookup(doc: TomlDoc, n: string, k: string)
    ensures Get(RootFirst(doc), n, k) == Get(doc, n, k)
  {
    assert RootFirst(doc)[1..] == Others(doc);
    if n == "" {
      RootLookup(doc, k);
    } else {
      OthersLookup(doc, n, k);
    }
  }

  lemma SameLookupsSameConfig(a: TomlDoc, b: TomlDoc)
    requires forall n, k :: Get(a, n, k) == Get(b, n, k)
    ensures ConfigFromDoc(a) == ConfigFromDoc(b)
  {
  }

  // ---- Saving and loading ----

  /**
   * `serializeConfig`, then `parseConfig`: the configuration comes back but for empty optional
   * fields, and every key the schema does not know has the value it had in `base`.
   */
  method SaveThenLoad(cfg: Config, base: TomlDoc, hex: string -> char) returns (text: string, doc: TomlDoc)
    requires DocOk(base) && SyncOk(cfg.sync)
    ensures Parsed(text, hex) == Some(doc)
    ensures ConfigFromDoc(doc) == Compact(cfg)
    ensures forall n, k :: (n, k) !in SCHEMA ==> Get(doc, n, k) == Get(base, n, k)
  {
    var written := ApplyConfigToDoc(cfg, base);
    AppliedIsOk(cfg, base);
    text := StringifyTomlDoc(written);
    PrintThenParse(written, hex);
    var parsed := ParseTomlDoc(text, hex);
    doc := parsed.value;
    forall n, k ensures Get(doc, n, k) == Get(written, n, k) {
      RootFirstLookup(written, n, k);
    }
    SameLookupsSameConfig(doc, written);
  }
}
