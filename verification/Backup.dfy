/** Exporting the servers of a user to a backup file and importing such a file. */
module Backup {
  import opened Text
  import opened Crypto

  /** Columns that a backup carries along; `None` is NULL, and JSON is given by its text. */
  datatype Extras = Extras(
    location: Option<string>, notes: Option<string>,
    tags: Option<string>, services: Option<string>, logPaths: Option<string>)

  datatype Server = Server(
    name: string, ip: string, port: int, user: string, mode: string, interval: int, extras: Extras,
    encKey: Option<string>, pubKey: Option<string>, gsSecret: Option<string>)

  /** An object of a backup file; a field that is missing or has another type is `None`. */
  datatype Entry = Entry(
    name: Option<string>, ip: Option<string>, port: Option<int>, user: Option<string>,
    mode: Option<string>, interval: Option<int>, extras: Extras,
    encryptedKey: Option<string>, publicKey: Option<string>,
    encryptedSecret: Option<string>, plainSecret: Option<string>)

  function TextOf(v: Option<string>): string {
    if v.Some? then v.value else ""
  }

  predicate Filled(v: Option<string>) {
    TextOf(v) != ""
  }

  function JsonOf(v: Option<string>): string {
    if v.Some? then v.value else "null"
  }

  /** The columns as an import writes them. */
  function Written(x: Extras): Extras {
    Extras(Some(TextOf(x.location)), Some(TextOf(x.notes)),
           Some(JsonOf(x.tags)), Some(JsonOf(x.services)), Some(JsonOf(x.logPaths)))
  }

  const PEM_START := "-----BEGIN"

  /** Encryption fails if no nonce can be had. */
  function TryEncrypt(suite: Suite, master: string, nonce: Option<string>, text: string): Option<string> {
    if nonce.Some? then Some(suite.Encrypt(master, nonce.value, text)) else None
  }

  function TryExport(suite: Suite, password: string, nonce: Option<string>, text: string): Option<string> {
    if nonce.Some? then Some(suite.ExportEncrypt(password, nonce.value, text)) else None
  }

  predicate GoodNonce(nonce: Option<string>) {
    nonce.Some? ==> |nonce.value| == NONCE_SIZE
  }

  // ---------- Export ----------

  ghost predicate GoodNonces(nonces: nat -> Option<string>) {
    forall i :: GoodNonce(nonces(i))
  }

  function ExportServer(suite: Suite, master: string, withKeys: bool, password: string, nonce: Option<string>, s: Server): Entry {
    var plain := Entry(Some(s.name), Some(s.ip), Some(s.port), Some(s.user), Some(s.mode), Some(s.interval), s.extras,
                       None, None, None, None);
    if !withKeys then plain
    else if s.mode == "gsocket" && Filled(s.gsSecret) then
      plain.(encryptedSecret := TryExport(suite, password, nonce, s.gsSecret.value))
    else if Filled(s.encKey) then
      match suite.Decrypt(master, s.encKey.value)
      case None => plain
      case Some(key) => plain.(encryptedKey := TryExport(suite, password, nonce, key), publicKey := s.pubKey)
    else plain
  }

  /** All columns of an exported entry.  Names, addresses and settings always go out as they are; a
      credential goes out sealed under the password, only with keys, and never in clear. */
  lemma ExportedColumns(suite: Suite, master: string, withKeys: bool, password: string, nonce: Option<string>, s: Server)
    ensures var e := ExportServer(suite, master, withKeys, password, nonce, s);
            var overGsocket := s.mode == "gsocket" && Filled(s.gsSecret);
            var key := if !overGsocket && Filled(s.encKey) then suite.Decrypt(master, s.encKey.value) else None;
            && e.name == Some(s.name) && e.ip == Some(s.ip) && e.port == Some(s.port) && e.user == Some(s.user)
            && e.mode == Some(s.mode) && e.interval == Some(s.interval) && e.extras == s.extras
            && e.plainSecret == None
            && e.encryptedSecret == (if withKeys && overGsocket && nonce.Some?
                                     then Some(suite.ExportEncrypt(password, nonce.value, s.gsSecret.value)) else None)
            && e.encryptedKey == (if withKeys && key.Some? && nonce.Some?
                                  then Some(suite.ExportEncrypt(password, nonce.value, key.value)) else None)
            && e.publicKey == (if withKeys && key.Some? then s.pubKey else None)
  {
  }

  function ExportAll(suite: Suite, master: string, withKeys: bool, password: string, nonces: nat -> Option<string>, servers: seq<Server>): (entries: seq<Entry>)
    ensures |entries| == |servers|
    ensures forall i :: 0 <= i < |servers| ==> entries[i] == ExportServer(suite, master, withKeys, password, nonces(i), servers[i])
  {
    seq(|servers|, i requires 0 <= i < |servers| => ExportServer(suite, master, withKeys, password, nonces(i), servers[i]))
  }

  method ExportConfig(suite: Suite, master: string, withKeys: bool, password: string, totpCode: string, totpOk: bool,
                      nonces: nat -> Option<string>, servers: seq<Server>)
    returns (r: Option<seq<Entry>>)
    ensures r.Some? <==> !withKeys || (totpCode != "" && password != "" && totpOk)
    ensures r.Some? ==> r.value == ExportAll(suite, master, withKeys, password, nonces, servers)
  {
    if withKeys {
      if totpCode == "" || password == "" { return None; }
      if !totpOk { return None; }
    }
    var entries := [];
    for i := 0 to |servers|
      invariant |entries| == i
      invariant forall j :: 0 <= j < i ==> entries[j] == ExportServer(suite, master, withKeys, password, nonces(j), servers[j])
    {
      entries := entries + [ExportServer(suite, master, withKeys, password, nonces(i), servers[i])];
    }
    return Some(entries);
  }

  // ---------- Import ----------

  /** What becomes of an entry: a row is offered to the database, or the entry is skipped and
      counted, or passed over in silence. */
  datatype Verdict = Offered(row: Server) | Skipped | Dropped

  datatype KeyPair = KeyPair(private: string, public: string)

  /** The private key that an entry brings along, if it can be read. */
  function RestoredKey(suite: Suite, password: string, e: Entry): Option<string> {
    if Filled(e.encryptedKey) && password != "" then
      match suite.ExportDecrypt(password, e.encryptedKey.value)
      case None => None
      case Some(key) => if PEM_START <= key then Some(key) else None
    else None
  }

  /** The GSSocket secret of an entry that is imported with keys. */
  function RestoredSecret(suite: Suite, password: string, e: Entry): Option<string> {
    if Filled(e.encryptedSecret) && password != "" then
      match suite.ExportDecrypt(password, e.encryptedSecret.value)
      case None => None
      case Some(secret) => if secret != "" then Some(secret) else None
    else if Filled(e.plainSecret) then e.plainSecret
    else None
  }

  /** The credential columns of a new row; `Lost` is counted as skipped and `Absent` is not. */
  datatype Material = Have(encKey: string, pubKey: string, gsSecret: Option<string>) | Lost | Absent

  /** `pair` is the key pair that an import without keys generates, if that succeeds. */
  function FindMaterial(suite: Suite, master: string, withKeys: bool, password: string,
                        nonce: Option<string>, pair: Option<KeyPair>, gs: bool, e: Entry): Material {
    if gs && withKeys then
      var secret := RestoredSecret(suite, password, e);
      if secret.Some? then Have("", "", secret) else Lost
    else if gs then
      if Filled(e.plainSecret) then Have("", "", e.plainSecret) else Absent
    else if withKeys then
      match RestoredKey(suite, password, e) {
        case None => Lost
        case Some(key) =>
          var enc := TryEncrypt(suite, master, nonce, key);
          if Filled(enc) then Have(enc.value, TextOf(e.publicKey), None) else Lost
      }
    else if pair.None? then Absent
    else
      var enc := TryEncrypt(suite, master, nonce, pair.value.private);
      if enc.Some? then Have(enc.value, pair.value.public, None) else Absent
  }

  /** An entry without a name, or of a direct server without an address, is passed over; missing
      fields of others get their defaults. */
  function ImportEntry(suite: Suite, master: string, withKeys: bool, password: string, nonce: Option<string>, pair: Option<KeyPair>, e: Entry): Verdict {
    var mode := if Filled(e.mode) then e.mode.value else "direct";
    var gs := mode == "gsocket";
    if TextOf(e.name) == "" || (!gs && (TextOf(e.ip) == "" || TextOf(e.user) == "")) then Dropped
    else
      var ip := if TextOf(e.ip) == "" then "gsocket" else TextOf(e.ip);
      var user := if TextOf(e.user) == "" then "gsocket" else TextOf(e.user);
      match FindMaterial(suite, master, withKeys, password, nonce, pair, gs, e)
      case Lost => Skipped
      case Absent => Dropped
      case Have(encKey, pubKey, secret) =>
        Offered(Server(e.name.value, ip, if e.port.Some? then e.port.value else 22, user, mode,
                       if e.interval.Some? then e.interval.value else 30, Written(e.extras),
                       Some(encKey), Some(pubKey), secret))
  }

  /** The mode in which an entry is imported. */
  predicate IsGsocketEntry(e: Entry) {
    e.mode == Some("gsocket")
  }

  /** An import takes notice of the entry at all. */
  predicate AddressedEntry(e: Entry) {
    Filled(e.name) && (IsGsocketEntry(e) || (Filled(e.ip) && Filled(e.user)))
  }

  /** The credential for the new row can be had. */
  predicate Usable(suite: Suite, withKeys: bool, password: string, nonce: Option<string>, pair: Option<KeyPair>, e: Entry) {
    if IsGsocketEntry(e) then
      if withKeys && password != "" && Filled(e.encryptedSecret)
      then Filled(suite.ExportDecrypt(password, e.encryptedSecret.value))
      else Filled(e.plainSecret)
    else if withKeys then
      nonce.Some? && password != "" && Filled(e.encryptedKey) &&
      var key := suite.ExportDecrypt(password, e.encryptedKey.value);
      key.Some? && "-----BEGIN" <= key.value
    else
      nonce.Some? && pair.Some?
  }

  /** The columns of a row that is not for a credential: missing fields have their defaults. */
  predicate HasColumns(e: Entry, row: Server) {
    && row.name == TextOf(e.name) != ""
    && row.mode == (if Filled(e.mode) then e.mode.value else "direct")
    && row.ip == (if IsGsocketEntry(e) && !Filled(e.ip) then "gsocket" else TextOf(e.ip)) != ""
    && row.user == (if IsGsocketEntry(e) && !Filled(e.user) then "gsocket" else TextOf(e.user)) != ""
    && row.port == (if e.port.Some? then e.port.value else 22)
    && row.interval == (if e.interval.Some? then e.interval.value else 30)
    && row.extras.location == Some(TextOf(e.extras.location)) && row.extras.notes == Some(TextOf(e.extras.notes))
    && row.extras.tags == Some(JsonOf(e.extras.tags)) && row.extras.services == Some(JsonOf(e.extras.services))
    && row.extras.logPaths == Some(JsonOf(e.extras.logPaths))
  }

  /** The columns for a GSSocket credential: the secret that the password opens, or the plain one. */
  predicate HasSecret(suite: Suite, withKeys: bool, password: string, e: Entry, row: Server) {
    && row.encKey == Some("") && row.pubKey == Some("")
    && row.gsSecret.Some? && row.gsSecret.value != ""
    && row.gsSecret == if withKeys && password != "" && Filled(e.encryptedSecret)
                       then suite.ExportDecrypt(password, e.encryptedSecret.value) else e.plainSecret
  }

  /** Those for a key: the private key sealed under the master key and the public key as it is, of
      the entry with keys and of the generated pair without. */
  predicate HasKeys(suite: Suite, master: string, withKeys: bool, password: string,
                    nonce: Option<string>, pair: Option<KeyPair>, e: Entry, row: Server) {
    && row.gsSecret == None && nonce.Some?
    && if withKeys then
         && password != "" && Filled(e.encryptedKey)
         && var key := suite.ExportDecrypt(password, e.encryptedKey.value);
            key.Some? && row.encKey == Some(suite.Encrypt(master, nonce.value, key.value)) && row.pubKey == Some(TextOf(e.publicKey))
       else
         && pair.Some? && row.encKey == Some(suite.Encrypt(master, nonce.value, pair.value.private))
         && row.pubKey == Some(pair.value.public)
  }

  /** The row is what an import makes of the entry. */
  predicate RowOf(suite: Suite, master: string, withKeys: bool, password: string,
                  nonce: Option<string>, pair: Option<KeyPair>, e: Entry, row: Server) {
    HasColumns(e, row) &&
    if IsGsocketEntry(e) then HasSecret(suite, withKeys, password, e, row)
    else HasKeys(suite, master, withKeys, password, nonce, pair, e, row)
  }

  /** All columns of a row that is offered, by the entry and what was generated for it. */
  lemma OfferedRow(suite: Suite, master: string, withKeys: bool, password: string, nonce: Option<string>, pair: Option<KeyPair>, e: Entry)
    ensures var v := ImportEntry(suite, master, withKeys, password, nonce, pair, e);
            v.Offered? ==> RowOf(suite, master, withKeys, password, nonce, pair, e, v.row)
  {
    assert (if Filled(e.mode) then e.mode.value else "direct") == "gsocket" <==> IsGsocketEntry(e);
  }

  method ObtainMaterial(suite: Suite, master: string, withKeys: bool, password: string,
                        nonce: Option<string>, pair: Option<KeyPair>, gs: bool, e: Entry)
    returns (m: Material)
    ensures m == FindMaterial(suite, master, withKeys, password, nonce, pair, gs, e)
    ensures m.Have? ==> (gs <==> Filled(m.gsSecret))
  {
    var encPriv, pubSSH := "", "";
    if gs && withKeys {
      if Filled(e.encryptedSecret) && password != "" {
        var secret := suite.ExportDecrypt(password, e.encryptedSecret.value);
        if Filled(secret) { return Have("", "", secret); }
        return Lost;
      } else if Filled(e.plainSecret) {
        return Have("", "", e.plainSecret);
      }
      return Lost;
    } else if gs {
      if Filled(e.plainSecret) { return Have("", "", e.plainSecret); }
      return Absent;
    } else if withKeys {
      if Filled(e.encryptedKey) && password != "" {
        var key := suite.ExportDecrypt(password, e.encryptedKey.value);
        if key.Some? && PEM_START <= key.value {
          var enc := TryEncrypt(suite, master, nonce, key.value);
          if enc.Some? {
            encPriv := enc.value;
            pubSSH := TextOf(e.publicKey);
          }
        }
      }
      if encPriv == "" { return Lost; }
    } else {
      if pair.None? { return Absent; }
      var enc := TryEncrypt(suite, master, nonce, pair.value.private);
      if enc.None? { return Absent; }
      encPriv := enc.value;
      pubSSH := pair.value.public;
    }
    return Have(encPriv, pubSSH, None);
  }

  /** The body of the import loop on one entry. */
  method ImportOne(suite: Suite, master: string, withKeys: bool, password: string, nonce: Option<string>, pair: Option<KeyPair>, e: Entry)
    returns (v: Verdict)
    ensures v == ImportEntry(suite, master, withKeys, password, nonce, pair, e)
    ensures v.Offered? ==> RowOf(suite, master, withKeys, password, nonce, pair, e, v.row)
  {
    var name, ip, user := TextOf(e.name), TextOf(e.ip), TextOf(e.user);
    if name == "" { return Dropped; }
    var port, mode, interval := 22, "direct", 30;
    if e.port.Some? { port := e.port.value; }
    if Filled(e.mode) { mode := e.mode.value; }
    if e.interval.Some? { interval := e.interval.value; }

    if mode == "gsocket" {
      if ip == "" { ip := "gsocket"; }
      if user == "" { user := "gsocket"; }
    } else if ip == "" || user == "" {
      return Dropped;
    }

    var m := ObtainMaterial(suite, master, withKeys, password, nonce, pair, mode == "gsocket", e);
    if m.Lost? { return Skipped; }
    if m.Absent? { return Dropped; }
    v := Offered(Server(name, ip, port, user, mode, interval, Written(e.extras), Some(m.encKey), Some(m.pubKey), m.gsSecret));
    OfferedRow(suite, master, withKeys, password, nonce, pair, e);
  }

  /** The stored key of a row that is offered can be read under the master key of the import. */
  lemma OfferedKey(suite: Suite, master: string, withKeys: bool, password: string, nonce: Option<string>, pair: Option<KeyPair>, e: Entry)
    ensures var v := ImportEntry(suite, master, withKeys, password, nonce, pair, e);
            v.Offered? && v.row.mode != "gsocket" && suite.Ideal() && GoodNonce(nonce) ==>
              (withKeys || pair.Some?) && suite.Decrypt(master, TextOf(v.row.encKey)) ==
                if withKeys then RestoredKey(suite, password, e) else Some(pair.value.private)
  {
    if suite.Ideal() && GoodNonce(nonce) && nonce.Some? {
      var key := RestoredKey(suite, password, e);
      if key.Some? { suite.DecryptExactly(master, master, nonce.value, key.value); }
      if pair.Some? { suite.DecryptExactly(master, master, nonce.value, pair.value.private); }
    }
  }

  lemma MaterialKind(suite: Suite, master: string, withKeys: bool, password: string, nonce: Option<string>, pair: Option<KeyPair>, e: Entry)
    requires suite.Ideal() && GoodNonce(nonce)
    ensures var m := FindMaterial(suite, master, withKeys, password, nonce, pair, IsGsocketEntry(e), e);
            && (m.Have? <==> Usable(suite, withKeys, password, nonce, pair, e))
            && (m.Lost? <==> withKeys && !Usable(suite, withKeys, password, nonce, pair, e))
  {
    var key := RestoredKey(suite, password, e);
    if key.Some? && nonce.Some? {
      suite.DecryptExactly(master, master, nonce.value, key.value);
    }
  }

  /** What becomes of an entry, by what it holds and what can be generated for it. */
  lemma EntryVerdict(suite: Suite, master: string, withKeys: bool, password: string, nonce: Option<string>, pair: Option<KeyPair>, e: Entry)
    requires suite.Ideal() && GoodNonce(nonce)
    ensures var v := ImportEntry(suite, master, withKeys, password, nonce, pair, e);
            && (v.Offered? <==> AddressedEntry(e) && Usable(suite, withKeys, password, nonce, pair, e))
            && (v.Skipped? <==> AddressedEntry(e) && !Usable(suite, withKeys, password, nonce, pair, e) && withKeys)
  {
    MaterialKind(suite, master, withKeys, password, nonce, pair, e);
    assert (if Filled(e.mode) then e.mode.value else "direct") == "gsocket" <==> IsGsocketEntry(e);
  }

  /** The rows of an import, its count of skipped entries, and the entries that it leaves out
      without counting them. */
  datatype Tally = Tally(rows: seq<Server>, skipped: nat, silent: nat)

  /** `accepted` says whether the database takes the row. */
  function Add(t: Tally, v: Verdict, accepted: bool): Tally {
    match v
    case Offered(row) => if accepted then t.(rows := t.rows + [row]) else t.(silent := t.silent + 1)
    case Skipped => t.(skipped := t.skipped + 1)
    case Dropped => t.(silent := t.silent + 1)
  }

  /** What entry `i` of an import meets with: a nonce and a key pair, or failures to get them, and
      the database's answer to its row. */
  datatype Supply = Supply(nonce: nat -> Option<string>, pair: nat -> Option<KeyPair>, accepts: nat -> bool)

  function ImportAll(suite: Suite, master: string, withKeys: bool, password: string, supply: Supply, entries: seq<Entry>): Tally {
    if entries == [] then Tally([], 0, 0)
    else
      var i := |entries| - 1;
      Add(ImportAll(suite, master, withKeys, password, supply, entries[..i]),
          ImportEntry(suite, master, withKeys, password, supply.nonce(i), supply.pair(i), entries[i]), supply.accepts(i))
  }

  /** The row is made of the entry at a place, and accepted. */
  predicate MadeOf(suite: Suite, master: string, withKeys: bool, password: string, supply: Supply,
                   entries: seq<Entry>, i: nat, row: Server) {
    i < |entries| && supply.accepts(i) && RowOf(suite, master, withKeys, password, supply.nonce(i), supply.pair(i), entries[i], row)
  }

  /** The rows are made of the entries at these places, in order. */
  ghost predicate Selects(suite: Suite, master: string, withKeys: bool, password: string, supply: Supply,
                          entries: seq<Entry>, rows: seq<Server>, at: seq<nat>) {
    && |at| == |rows|
    && (forall k, l :: 0 <= k < l < |at| ==> at[k] < at[l])
    && (forall k :: 0 <= k < |at| ==> MadeOf(suite, master, withKeys, password, supply, entries, at[k], rows[k]))
  }

  lemma SelectsMore(suite: Suite, master: string, withKeys: bool, password: string, supply: Supply,
                    entries: seq<Entry>, rows: seq<Server>, at: seq<nat>)
    requires entries != [] && Selects(suite, master, withKeys, password, supply, entries[..|entries| - 1], rows, at)
    ensures Selects(suite, master, withKeys, password, supply, entries, rows, at)
    ensures forall k :: 0 <= k < |at| ==> at[k] < |entries| - 1
  {
    var shorter := entries[..|entries| - 1];
    forall k | 0 <= k < |at|
      ensures at[k] < |entries| - 1 && MadeOf(suite, master, withKeys, password, supply, entries, at[k], rows[k])
    {
      assert MadeOf(suite, master, withKeys, password, supply, shorter, at[k], rows[k]);
      assert shorter[at[k]] == entries[at[k]];
    }
  }

  lemma SelectsLast(suite: Suite, master: string, withKeys: bool, password: string, supply: Supply,
                    entries: seq<Entry>, rows: seq<Server>, at: seq<nat>, row: Server)
    requires entries != [] && Selects(suite, master, withKeys, password, supply, entries[..|entries| - 1], rows, at)
    requires MadeOf(suite, master, withKeys, password, supply, entries, |entries| - 1, row)
    ensures Selects(suite, master, withKeys, password, supply, entries, rows + [row], at + [|entries| - 1])
  {
    SelectsMore(suite, master, withKeys, password, supply, entries, rows, at);
    var at', rows' := at + [|entries| - 1], rows + [row];
    forall k | 0 <= k < |at'| ensures MadeOf(suite, master, withKeys, password, supply, entries, at'[k], rows'[k]) {
      if k < |at| {
        assert MadeOf(suite, master, withKeys, password, supply, entries, at[k], rows[k]);
      }
    }
  }

  /** The places of the entries whose rows are inserted. */
  function Places(suite: Suite, master: string, withKeys: bool, password: string, supply: Supply, entries: seq<Entry>): seq<nat> {
    if entries == [] then []
    else
      var i := |entries| - 1;
      var v := ImportEntry(suite, master, withKeys, password, supply.nonce(i), supply.pair(i), entries[i]);
      Places(suite, master, withKeys, password, supply, entries[..i]) + if v.Offered? && supply.accepts(i) then [i] else []
  }

  lemma {:induction false} PlacesSelect(suite: Suite, master: string, withKeys: bool, password: string, supply: Supply, entries: seq<Entry>)
    ensures Selects(suite, master, withKeys, password, supply, entries,
                    ImportAll(suite, master, withKeys, password, supply, entries).rows,
                    Places(suite, master, withKeys, password, supply, entries))
    decreases |entries|
  {
    if entries != [] {
      var i := |entries| - 1;
      PlacesSelect(suite, master, withKeys, password, supply, entries[..i]);
      var rows := ImportAll(suite, master, withKeys, password, supply, entries[..i]).rows;
      var at := Places(suite, master, withKeys, password, supply, entries[..i]);
      var v := ImportEntry(suite, master, withKeys, password, supply.nonce(i), supply.pair(i), entries[i]);
      OfferedRow(suite, master, withKeys, password, supply.nonce(i), supply.pair(i), entries[i]);
      if v.Offered? && supply.accepts(i) {
        SelectsLast(suite, master, withKeys, password, supply, entries, rows, at, v.row);
      } else {
        SelectsMore(suite, master, withKeys, password, supply, entries, rows, at);
      }
    }
  }

  predicate IsPlace(suite: Suite, withKeys: bool, password: string, supply: Supply, entries: seq<Entry>, i: nat) {
    i < |entries| && IsImported(suite, withKeys, password, supply)(i, entries[i])
  }

  lemma PlacesLast(suite: Suite, master: string, withKeys: bool, password: string, supply: Supply, entries: seq<Entry>)
    requires suite.Ideal() && GoodNonces(supply.nonce) && entries != []
    ensures var n: nat := |entries| - 1;
            Places(suite, master, withKeys, password, supply, entries) ==
            Places(suite, master, withKeys, password, supply, entries[..n]) +
            if IsPlace(suite, withKeys, password, supply, entries, n) then [n] else []
  {
    var n := |entries| - 1;
    EntryVerdict(suite, master, withKeys, password, supply.nonce(n), supply.pair(n), entries[n]);
  }

  lemma {:induction false} PlacesExact(suite: Suite, master: string, withKeys: bool, password: string, supply: Supply, entries: seq<Entry>, i: nat)
    requires suite.Ideal() && GoodNonces(supply.nonce)
    ensures i in Places(suite, master, withKeys, password, supply, entries) <==>
            IsPlace(suite, withKeys, password, supply, entries, i)
    decreases |entries|
  {
    if entries != [] {
      var n := |entries| - 1;
      PlacesExact(suite, master, withKeys, password, supply, entries[..n], i);
      PlacesLast(suite, master, withKeys, password, supply, entries);
    }
  }

  /** The rows of an import are made, in order, of exactly the addressed entries with a usable
      credential whose row the database takes. */
  lemma {:induction false} ImportedRows(suite: Suite, master: string, withKeys: bool, password: string, supply: Supply, entries: seq<Entry>)
    returns (at: seq<nat>)
    ensures Selects(suite, master, withKeys, password, supply, entries,
                    ImportAll(suite, master, withKeys, password, supply, entries).rows, at)
    ensures suite.Ideal() && GoodNonces(supply.nonce) ==>
              forall i: nat :: i in at <==> IsPlace(suite, withKeys, password, supply, entries, i)
  {
    at := Places(suite, master, withKeys, password, supply, entries);
    PlacesSelect(suite, master, withKeys, password, supply, entries);
    if suite.Ideal() && GoodNonces(supply.nonce) {
      forall i: nat ensures i in at <==> IsPlace(suite, withKeys, password, supply, entries, i) {
        PlacesExact(suite, master, withKeys, password, supply, entries, i);
      }
    }
  }

  /** The rows inserted and the two counters of the answer; an empty list is refused. */
  method ImportConfig(suite: Suite, master: string, withKeys: bool, password: string, supply: Supply, entries: seq<Entry>)
    returns (ok: bool, rows: seq<Server>, imported: nat, skippedKeys: nat)
    ensures ok <==> entries != []
    ensures ok ==> var t := ImportAll(suite, master, withKeys, password, supply, entries);
                   rows == t.rows && imported == |t.rows| && skippedKeys == t.skipped
    ensures !ok ==> rows == [] && imported == 0 && skippedKeys == 0
    ensures ok ==> exists at :: Selects(suite, master, withKeys, password, supply, entries, rows, at)
  {
    rows, imported, skippedKeys := [], 0, 0;
    if |entries| == 0 { return false, [], 0, 0; }
    for i := 0 to |entries|
      invariant var t := ImportAll(suite, master, withKeys, password, supply, entries[..i]);
                rows == t.rows && imported == |t.rows| && skippedKeys == t.skipped
    {
      assert entries[..i + 1][..i] == entries[..i];
      var v := ImportOne(suite, master, withKeys, password, supply.nonce(i), supply.pair(i), entries[i]);
      if v.Skipped? {
        skippedKeys := skippedKeys + 1;
      } else if v.Offered? && supply.accepts(i) {
        rows := rows + [v.row];
        imported := imported + 1;
      }
    }
    assert entries[..|entries|] == entries;
    ghost var at := ImportedRows(suite, master, withKeys, password, supply, entries);
    ok := true;
  }

  /** How many entries belong to a class that may depend on their place. */
  function CountEntries(entries: seq<Entry>, p: (nat, Entry) -> bool): nat {
    if entries == [] then 0
    else
      var i := |entries| - 1;
      CountEntries(entries[..i], p) + if p(i, entries[i]) then 1 else 0
  }

  lemma CountLast(entries: seq<Entry>, p: (nat, Entry) -> bool, last: bool)
    requires entries != [] && p(|entries| - 1, entries[|entries| - 1]) == last
    ensures CountEntries(entries, p) == CountEntries(entries[..|entries| - 1], p) + if last then 1 else 0
  {
  }

  function IsImported(suite: Suite, withKeys: bool, password: string, supply: Supply): (nat, Entry) -> bool {
    (i: nat, e: Entry) =>
      AddressedEntry(e) && Usable(suite, withKeys, password, supply.nonce(i), supply.pair(i), e) && supply.accepts(i)
  }

  function IsSkipped(suite: Suite, withKeys: bool, password: string, supply: Supply): (nat, Entry) -> bool {
    (i: nat, e: Entry) =>
      AddressedEntry(e) && !Usable(suite, withKeys, password, supply.nonce(i), supply.pair(i), e) && withKeys
  }

  /** The answer counts as imported exactly the addressed entries with a usable credential whose
      row the database takes, and as skipped exactly the addressed ones of an import with keys
      whose credential is not usable.  All others it leaves out in silence: those without name or
      address, those without credential in an import without keys, and those refused. */
  lemma {:induction false} EveryEntryCounted(suite: Suite, master: string, withKeys: bool, password: string, supply: Supply, entries: seq<Entry>)
    requires suite.Ideal() && GoodNonces(supply.nonce)
    ensures var t := ImportAll(suite, master, withKeys, password, supply, entries);
            && |t.rows| == CountEntries(entries, IsImported(suite, withKeys, password, supply))
            && t.skipped == CountEntries(entries, IsSkipped(suite, withKeys, password, supply))
            && |t.rows| + t.skipped + t.silent == |entries|
    decreases |entries|
  {
    if entries != [] {
      var i := |entries| - 1;
      EveryEntryCounted(suite, master, withKeys, password, supply, entries[..i]);
      EntryVerdict(suite, master, withKeys, password, supply.nonce(i), supply.pair(i), entries[i]);
      var v := ImportEntry(suite, master, withKeys, password, supply.nonce(i), supply.pair(i), entries[i]);
      var before := ImportAll(suite, master, withKeys, password, supply, entries[..i]);
      assert ImportAll(suite, master, withKeys, password, supply, entries) == Add(before, v, supply.accepts(i));
      CountLast(entries, IsImported(suite, withKeys, password, supply), v.Offered? && supply.accepts(i));
      CountLast(entries, IsSkipped(suite, withKeys, password, supply), v.Skipped?);
    }
  }

  // ---------- Round trips of one server ----------

  predicate IsGsocket(s: Server) {
    s.mode == "gsocket"
  }

  /** An import takes notice of the server at all. */
  predicate Addressed(s: Server) {
    s.name != "" && (IsGsocket(s) || (s.ip != "" && s.user != ""))
  }

  /** It has a credential that the export can read. */
  predicate Credentialed(suite: Suite, master: string, s: Server) {
    if IsGsocket(s) then Filled(s.gsSecret)
    else Filled(s.encKey) &&
         var key := suite.Decrypt(master, s.encKey.value);
         key.Some? && PEM_START <= key.value
  }

  /** The decrypted credential with which the server is reached. */
  function Credential(suite: Suite, master: string, s: Server): Option<string> {
    if IsGsocket(s) then if Filled(s.gsSecret) then suite.Decrypt(master, s.gsSecret.value) else None
    else if Filled(s.encKey) then suite.Decrypt(master, s.encKey.value)
    else None
  }

  /** A restored row offered: the server is addressed, its credential can be read, and nonces for
      the export and, unless it is kept as it is, for the import can be had. */
  predicate Restorable(suite: Suite, before: string, nonce: Option<string>, nonce': Option<string>, s: Server) {
    Addressed(s) && Credentialed(suite, before, s) && nonce.Some? && (IsGsocket(s) || nonce'.Some?)
  }

  /** What a restored row has in common with the server it comes from; `before` and `after` are
      the master keys of the export and of the import. */
  predicate Restored(suite: Suite, before: string, after: string, s: Server, row: Server) {
    && row.name == s.name && row.port == s.port && row.interval == s.interval
    && row.mode == (if s.mode == "" then "direct" else s.mode)
    && row.ip == (if IsGsocket(s) && s.ip == "" then "gsocket" else s.ip)
    && row.user == (if IsGsocket(s) && s.user == "" then "gsocket" else s.user)
    && TextOf(row.extras.location) == TextOf(s.extras.location) && TextOf(row.extras.notes) == TextOf(s.extras.notes)
    && JsonOf(row.extras.tags) == JsonOf(s.extras.tags) && JsonOf(row.extras.services) == JsonOf(s.extras.services)
    && JsonOf(row.extras.logPaths) == JsonOf(s.extras.logPaths)
    && (IsGsocket(s) ==> row.gsSecret == s.gsSecret)
    && (!IsGsocket(s) ==> TextOf(row.pubKey) == TextOf(s.pubKey))
    && (!IsGsocket(s) || after == before ==> Credential(suite, after, row) == Credential(suite, before, s))
  }

  /** What an import reads back of an exported GSSocket secret. */
  lemma ExportedSecret(suite: Suite, before: string, password: string, password': string, nonce: Option<string>, s: Server)
    requires suite.Ideal() && GoodNonce(nonce) && IsGsocket(s)
    ensures RestoredSecret(suite, password', ExportServer(suite, before, true, password, nonce, s)) ==
            if Filled(s.gsSecret) && nonce.Some? && suite.derive(password) == suite.derive(password') && password' != "" then s.gsSecret else None
  {
    if Filled(s.gsSecret) && nonce.Some? {
      suite.ExportDecryptExactly(password, password', nonce.value, s.gsSecret.value);
    }
  }

  /** And of an exported key. */
  lemma ExportedKey(suite: Suite, before: string, password: string, password': string, nonce: Option<string>, s: Server)
    requires suite.Ideal() && GoodNonce(nonce) && !IsGsocket(s)
    ensures RestoredKey(suite, password', ExportServer(suite, before, true, password, nonce, s)) ==
            if Credentialed(suite, before, s) && nonce.Some? && suite.derive(password) == suite.derive(password') && password' != "" then Credential(suite, before, s) else None
  {
    if Filled(s.encKey) && nonce.Some? {
      var key := suite.Decrypt(before, s.encKey.value);
      if key.Some? {
        suite.ExportDecryptExactly(password, password', nonce.value, key.value);
      }
    }
  }

  lemma {:induction false} GsocketRoundTrip(suite: Suite, before: string, after: string, password: string,
                         nonce: Option<string>, nonce': Option<string>, pair: Option<KeyPair>, s: Server)
    requires suite.Ideal() && password != "" && GoodNonce(nonce) && GoodNonce(nonce') && IsGsocket(s)
    ensures var v := ImportEntry(suite, after, true, password, nonce', pair, ExportServer(suite, before, true, password, nonce, s));
            v.Offered? ==> Restored(suite, before, after, s, v.row)
  {
    ExportedSecret(suite, before, password, password, nonce, s);
  }

  lemma DirectRoundTrip(suite: Suite, before: string, after: string, password: string,
                        nonce: Option<string>, nonce': Option<string>, pair: Option<KeyPair>, s: Server)
    requires suite.Ideal() && password != "" && GoodNonce(nonce) && GoodNonce(nonce') && !IsGsocket(s)
    ensures var v := ImportEntry(suite, after, true, password, nonce', pair, ExportServer(suite, before, true, password, nonce, s));
            v.Offered? ==> Restored(suite, before, after, s, v.row)
  {
    ExportedKey(suite, before, password, password, nonce, s);
    OfferedKey(suite, after, true, password, nonce', pair, ExportServer(suite, before, true, password, nonce, s));
  }

  /** Exported with keys and imported with the same password, a server comes back exactly if it is
      restorable; otherwise it is skipped, or dropped without a name or an address. */
  lemma {:induction false} ServerRoundTrip(suite: Suite, before: string, after: string, password: string,
                        nonce: Option<string>, nonce': Option<string>, pair: Option<KeyPair>, s: Server)
    requires suite.Ideal() && password != "" && GoodNonce(nonce) && GoodNonce(nonce')
    ensures var e := ExportServer(suite, before, true, password, nonce, s);
            var v := ImportEntry(suite, after, true, password, nonce', pair, e);
            && (v.Dropped? <==> !Addressed(s))
            && (v.Offered? <==> Restorable(suite, before, nonce, nonce', s))
            && (v.Offered? ==> Restored(suite, before, after, s, v.row))
  {
    EntryVerdict(suite, after, true, password, nonce', pair, ExportServer(suite, before, true, password, nonce, s));
    if IsGsocket(s) {
      ExportedSecret(suite, before, password, password, nonce, s);
      GsocketRoundTrip(suite, before, after, password, nonce, nonce', pair, s);
    } else {
      ExportedKey(suite, before, password, password, nonce, s);
      DirectRoundTrip(suite, before, after, password, nonce, nonce', pair, s);
    }
  }

  /** With a password that gives another key nothing comes back: every addressed server is
      skipped. */
  lemma {:induction false} WrongPassword(suite: Suite, before: string, after: string, password: string, wrong: string,
                      nonce: Option<string>, nonce': Option<string>, pair: Option<KeyPair>, s: Server)
    requires suite.Ideal() && suite.derive(wrong) != suite.derive(password) && GoodNonce(nonce) && GoodNonce(nonce')
    ensures var e := ExportServer(suite, before, true, password, nonce, s);
            ImportEntry(suite, after, true, wrong, nonce', pair, e) == if Addressed(s) then Skipped else Dropped
  {
    EntryVerdict(suite, after, true, wrong, nonce', pair, ExportServer(suite, before, true, password, nonce, s));
    if IsGsocket(s) {
      ExportedSecret(suite, before, password, wrong, nonce, s);
    } else {
      ExportedKey(suite, before, password, wrong, nonce, s);
    }
  }

  /** A restored GSSocket server keeps its stored secret as it was, still under the master key of
      the export: the credential can be read exactly if the import has the same key. */
  lemma GsocketNeedsMasterKey(suite: Suite, before: string, after: string, nonce: string, secret: string, s: Server, row: Server)
    requires suite.Ideal() && |nonce| == NONCE_SIZE
    requires IsGsocket(s) && s.gsSecret == Some(suite.Encrypt(before, nonce, secret))
    requires Restored(suite, before, after, s, row)
    ensures Credential(suite, after, row) == Some(secret) <==> after == before
    ensures Credential(suite, before, s) == Some(secret)
  {
    suite.DecryptExactly(before, after, nonce, secret);
    suite.DecryptExactly(before, before, nonce, secret);
  }

  /** Imported without keys, a direct server gets a new key, if one can be had, and a GSSocket
      server is dropped without being counted, whether or not the backup has keys. */
  lemma KeylessImport(suite: Suite, before: string, after: string, withKeys: bool, password: string, password': string,
                      nonce: Option<string>, nonce': Option<string>, pair: Option<KeyPair>, s: Server)
    requires suite.Ideal() && GoodNonce(nonce')
    ensures var e := ExportServer(suite, before, withKeys, password, nonce, s);
            var v := ImportEntry(suite, after, false, password', nonce', pair, e);
            if IsGsocket(s) || !Addressed(s) || pair.None? || nonce'.None? then v == Dropped
            else v.Offered? && Credential(suite, after, v.row) == Some(pair.value.private)
  {
    if pair.Some? && nonce'.Some? {
      suite.DecryptExactly(after, after, nonce'.value, pair.value.private);
    }
  }

  // ---------- Round trips of a whole backup ----------

  /** The rows are the restorable servers whose row the database takes, in order. */
  ghost predicate Matches(suite: Suite, before: string, after: string, nonces: nat -> Option<string>, supply: Supply,
                          servers: seq<Server>, rows: seq<Server>)
    decreases |servers|
  {
    if servers == [] then rows == []
    else
      var n := |servers| - 1;
      if Restorable(suite, before, nonces(n), supply.nonce(n), servers[n]) && supply.accepts(n) then
        && rows != [] && Restored(suite, before, after, servers[n], rows[|rows| - 1])
        && Matches(suite, before, after, nonces, supply, servers[..n], rows[..|rows| - 1])
      else Matches(suite, before, after, nonces, supply, servers[..n], rows)
  }

  /** The addressed servers that cannot be restored. */
  function CountLost(suite: Suite, before: string, nonces: nat -> Option<string>, supply: Supply, servers: seq<Server>): nat {
    if servers == [] then 0
    else
      var n := |servers| - 1;
      CountLost(suite, before, nonces, supply, servers[..n]) +
      if Addressed(servers[n]) && !Restorable(suite, before, nonces(n), supply.nonce(n), servers[n]) then 1 else 0
  }

  function CountAddressed(servers: seq<Server>): nat {
    if servers == [] then 0
    else CountAddressed(servers[..|servers| - 1]) + if Addressed(servers[|servers| - 1]) then 1 else 0
  }

  /** Importing an exported list handles its last server after the others. */
  lemma {:induction false} ImportLast(suite: Suite, before: string, after: string, password: string, password': string,
                   nonces: nat -> Option<string>, supply: Supply, servers: seq<Server>)
    requires servers != []
    ensures var n := |servers| - 1;
            ImportAll(suite, after, true, password', supply, ExportAll(suite, before, true, password, nonces, servers)) ==
            Add(ImportAll(suite, after, true, password', supply, ExportAll(suite, before, true, password, nonces, servers[..n])),
                ImportEntry(suite, after, true, password', supply.nonce(n), supply.pair(n),
                            ExportServer(suite, before, true, password, nonces(n), servers[n])), supply.accepts(n))
  {
    var n := |servers| - 1;
    assert ExportAll(suite, before, true, password, nonces, servers)[..n] == ExportAll(suite, before, true, password, nonces, servers[..n]);
  }

  /** A backup with keys, imported with its password, restores exactly the restorable servers whose
      row the database takes, in order, and counts exactly the other addressed ones as skipped. */
  lemma {:induction false} BackupRoundTrip(suite: Suite, before: string, after: string, password: string,
                                           nonces: nat -> Option<string>, supply: Supply, servers: seq<Server>)
    requires suite.Ideal() && password != "" && GoodNonces(nonces) && GoodNonces(supply.nonce)
    ensures var entries := ExportAll(suite, before, true, password, nonces, servers);
            var t := ImportAll(suite, after, true, password, supply, entries);
            && Matches(suite, before, after, nonces, supply, servers, t.rows)
            && t.skipped == CountLost(suite, before, nonces, supply, servers)
    decreases |servers|
  {
    if servers != [] {
      var n := |servers| - 1;
      ImportLast(suite, before, after, password, password, nonces, supply, servers);
      BackupRoundTrip(suite, before, after, password, nonces, supply, servers[..n]);
      ServerRoundTrip(suite, before, after, password, nonces(n), supply.nonce(n), supply.pair(n), servers[n]);
      var t := ImportAll(suite, after, true, password, supply, ExportAll(suite, before, true, password, nonces, servers[..n]));
      var v := ImportEntry(suite, after, true, password, supply.nonce(n), supply.pair(n),
                           ExportServer(suite, before, true, password, nonces(n), servers[n]));
      if v.Offered? {
        assert (t.rows + [v.row])[..|t.rows|] == t.rows;
      }
    }
  }

  /** With a password that gives another key it restores nothing and counts every addressed server as skipped. */
  lemma {:induction false} BackupWrongPassword(suite: Suite, before: string, after: string, password: string, wrong: string,
                                               nonces: nat -> Option<string>, supply: Supply, servers: seq<Server>)
    requires suite.Ideal() && suite.derive(wrong) != suite.derive(password) && GoodNonces(nonces) && GoodNonces(supply.nonce)
    ensures var entries := ExportAll(suite, before, true, password, nonces, servers);
            var t := ImportAll(suite, after, true, wrong, supply, entries);
            t.rows == [] && t.skipped == CountAddressed(servers)
    decreases |servers|
  {
    if servers != [] {
      var n := |servers| - 1;
      ImportLast(suite, before, after, password, wrong, nonces, supply, servers);
      BackupWrongPassword(suite, before, after, password, wrong, nonces, supply, servers[..n]);
      WrongPassword(suite, before, after, password, wrong, nonces(n), supply.nonce(n), supply.pair(n), servers[n]);
    }
  }
}
