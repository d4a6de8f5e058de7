/** Credentials and assets with their sealed columns, and the command that changes the encryption key
    of a whole database. */
module Secrets {
  import opened Wrappers
  import opened Sealing

  /** The two services seal alike, except that the asset service leaves the empty string alone. */
  datatype Kind = Credential | Asset

  datatype Row = Row(password: Bytes, privateKey: Bytes, passphrase: Bytes, encrypted: bool)

  type Table = map<string, Row>
  datatype Db = Db(credentials: Table, assets: Table)

  predicate Sealable(kind: Kind, v: Bytes) {
    v != DASH && (kind.Asset? ==> v != [])
  }

  function SealField(vault: Vault, kind: Kind, key: Bytes, v: Bytes): Outcome<Bytes>
  {
    if Sealable(kind, v) then vault.seal(key, v) else Ok(v)
  }

  function OpenField(vault: Vault, key: Bytes, v: Bytes): Outcome<Bytes>
  {
    if v != [] && v != DASH then vault.open(key, v) else Ok(v)
  }

  /** What a reader holding the key sees in a column. */
  function ReadField(vault: Vault, key: Bytes, encrypted: bool, v: Bytes): Outcome<Bytes>
  {
    if encrypted then OpenField(vault, key, v) else Ok(v)
  }

  function EncryptRow(vault: Vault, kind: Kind, key: Bytes, row: Row): Outcome<Row>
  {
    var password :- SealField(vault, kind, key, row.password);
    var privateKey :- SealField(vault, kind, key, row.privateKey);
    var passphrase :- SealField(vault, kind, key, row.passphrase);
    Ok(Row(password, privateKey, passphrase, true))
  }

  function DecryptRow(vault: Vault, key: Bytes, row: Row): Outcome<Row>
  {
    var password :- ReadField(vault, key, row.encrypted, row.password);
    var privateKey :- ReadField(vault, key, row.encrypted, row.privateKey);
    var passphrase :- ReadField(vault, key, row.encrypted, row.passphrase);
    Ok(Row(password, privateKey, passphrase, row.encrypted))
  }

  /** gorm's Updates writes only the non-zero fields of the struct it is given. */
  function Merge(stored: Row, item: Row): Row {
    Row(if item.password == [] then stored.password else item.password,
        if item.privateKey == [] then stored.privateKey else item.privateKey,
        if item.passphrase == [] then stored.passphrase else item.passphrase,
        stored.encrypted || item.encrypted)
  }

  function Rekeyed(vault: Vault, kind: Kind, oldKey: Bytes, newKey: Bytes, row: Row): Outcome<Row>
  {
    var plain :- DecryptRow(vault, oldKey, row);
    var sealed :- EncryptRow(vault, kind, newKey, plain);
    Ok(Merge(row, sealed))
  }

  // ---------- the services ----------

  /** The struct the services are handed; they overwrite its fields. */
  class Item {
    var password: Bytes
    var privateKey: Bytes
    var passphrase: Bytes
    var encrypted: bool

    constructor (row: Row)
      ensures AsRow() == row
    {
      password, privateKey, passphrase := row.password, row.privateKey, row.passphrase;
      encrypted := row.encrypted;
    }

    function AsRow(): Row
      reads this
    {
      Row(password, privateKey, passphrase, encrypted)
    }

    method Encrypt(vault: Vault, kind: Kind, key: Bytes) returns (r: Outcome<()>)
      modifies this
      ensures r.Ok? <==> EncryptRow(vault, kind, key, old(AsRow())).Ok?
      ensures r.Ok? ==> AsRow() == EncryptRow(vault, kind, key, old(AsRow())).value
    {
      if Sealable(kind, password) {
        var sealed :- vault.seal(key, password);
        password := sealed;
      }
      if Sealable(kind, privateKey) {
        var sealed :- vault.seal(key, privateKey);
        privateKey := sealed;
      }
      if Sealable(kind, passphrase) {
        var sealed :- vault.seal(key, passphrase);
        passphrase := sealed;
      }
      encrypted := true;
      return Ok(());
    }

    method Decrypt(vault: Vault, key: Bytes) returns (r: Outcome<()>)
      modifies this
      ensures r.Ok? <==> DecryptRow(vault, key, old(AsRow())).Ok?
      ensures r.Ok? ==> AsRow() == DecryptRow(vault, key, old(AsRow())).value
    {
      if encrypted {
        if password != [] && password != DASH {
          var plain :- vault.open(key, password);
          password := plain;
        }
        if privateKey != [] && privateKey != DASH {
          var plain :- vault.open(key, privateKey);
          privateKey := plain;
        }
        if passphrase != [] && passphrase != DASH {
          var plain :- vault.open(key, passphrase);
          passphrase := plain;
        }
      }
      return Ok(());
    }
  }

  class Database {
    var credentials: Table
    var assets: Table

    constructor (db: Db)
      ensures View() == db
    {
      credentials, assets := db.credentials, db.assets;
    }

    function View(): Db
      reads this
    {
      Db(credentials, assets)
    }

    /** Each row is decrypted and sealed again inside one transaction: any failure, on any row of either
        table, rolls everything back. */
    method ChangeEncryptionKey(vault: Vault, oldKey: Bytes, newKey: Bytes) returns (r: Outcome<()>)
      modifies this
      ensures r.Ok? <==> CanRekey(vault, oldKey, newKey, old(View()))
      ensures View() == if r.Ok? then RekeyedDb(vault, oldKey, newKey, old(View())) else old(View())
    {
      var newCredentials :- RekeyTable(vault, Credential, oldKey, newKey, credentials);
      var newAssets :- RekeyTable(vault, Asset, oldKey, newKey, assets);
      credentials, assets := newCredentials, newAssets;
      return Ok(());
    }

    /** Create and UpdateById hand the struct to Encrypt before it reaches its table. */
    method Create(vault: Vault, kind: Kind, key: Bytes, id: string, row: Row) returns (r: Outcome<()>)
      requires GoodKey(key)
      modifies this
      ensures View() == Step(vault, key, old(View()), Event.Create(kind, id, row)).0
      ensures r.Ok? <==> EncryptRow(vault, kind, key, row).Ok?
    {
      var item := new Item(row);
      var _ :- item.Encrypt(vault, kind, key);
      if kind.Credential? {
        credentials := credentials[id := item.AsRow()];
      } else {
        assets := assets[id := item.AsRow()];
      }
      return Ok(());
    }

    method UpdateById(vault: Vault, kind: Kind, key: Bytes, id: string, row: Row) returns (r: Outcome<()>)
      requires GoodKey(key)
      modifies this
      ensures View() == Step(vault, key, old(View()), Update(kind, id, row)).0
      ensures r.Ok? <==> EncryptRow(vault, kind, key, row).Ok?
    {
      var item := new Item(row);
      var _ :- item.Encrypt(vault, kind, key);
      if kind.Credential? && id in credentials {
        credentials := credentials[id := Merge(credentials[id], item.AsRow())];
      } else if kind.Asset? && id in assets {
        assets := assets[id := Merge(assets[id], item.AsRow())];
      }
      return Ok(());
    }

    /** An asset's update first blanks the secrets that its account type does not use. */
    method UpdateAsset(vault: Vault, key: Bytes, id: string, accountType: string, row: Row)
      returns (r: Outcome<()>)
      requires GoodKey(key)
      modifies this
      ensures View() == Step(vault, key, old(View()), Update(Asset, id, Blanked(accountType, row))).0
      ensures r.Ok? <==> EncryptRow(vault, Asset, key, Blanked(accountType, row)).Ok?
    {
      var item := row;
      if accountType == "credential" {
        item := item.(password := DASH, privateKey := DASH, passphrase := DASH);
      } else if accountType == "private-key" {
        item := item.(password := DASH);
        if |item.passphrase| == 0 {
          item := item.(passphrase := DASH);
        }
      } else if accountType == "custom" {
        item := item.(privateKey := DASH, passphrase := DASH);
        if |item.password| == 0 {
          item := item.(password := DASH);
        }
      }
      r := UpdateById(vault, Asset, key, id, item);
    }

    /** At start-up every row not yet sealed is sealed and written back. */
    method EncryptAll(vault: Vault, key: Bytes)
      requires GoodKey(key)
      modifies this
      ensures View() == EncryptedDb(vault, key, old(View()))
    {
      credentials := EncryptTable(vault, Credential, key, credentials);
      assets := EncryptTable(vault, Asset, key, assets);
    }
  }

  function Dashed(v: Bytes): Bytes {
    if v == [] then DASH else v
  }

  /** The secrets of an asset whose account is of this type; a secret that is not given is blanked, too, except for
      a private key. */
  function Blanked(accountType: string, row: Row): Row {
    match accountType
    case "credential" => row.(password := DASH, privateKey := DASH, passphrase := DASH)
    case "private-key" => row.(password := DASH, passphrase := Dashed(row.passphrase))
    case "custom" => row.(privateKey := DASH, passphrase := DASH, password := Dashed(row.password))
    case _ => row
  }

  /** Changing the account type leaves no secret of the other types in the row, whatever it held. */
  lemma TypeChangeClears(vault: Vault, key: Bytes, db: Db, id: string, accountType: string, row: Row)
    requires GoodKey(key) && id in db.assets
    ensures var after := Step(vault, key, db, Update(Asset, id, Blanked(accountType, row))).0;
            && id in after.assets
            && (accountType in {"credential", "custom"} ==>
                  after.assets[id].privateKey == after.assets[id].passphrase == DASH)
            && (accountType in {"credential", "private-key"} ==> after.assets[id].password == DASH)
  {
    EncryptRowIsGood(vault, Asset, key, Blanked(accountType, row));
  }

  predicate CanRekeyTable(vault: Vault, kind: Kind, oldKey: Bytes, newKey: Bytes, t: Table)
  {
    forall id :: id in t ==> Rekeyed(vault, kind, oldKey, newKey, t[id]).Ok?
  }

  function RekeyedTable(vault: Vault, kind: Kind, oldKey: Bytes, newKey: Bytes, t: Table): Table
    requires CanRekeyTable(vault, kind, oldKey, newKey, t)
  {
    map id | id in t :: Rekeyed(vault, kind, oldKey, newKey, t[id]).value
  }

  predicate CanRekey(vault: Vault, oldKey: Bytes, newKey: Bytes, db: Db)
  {
    && CanRekeyTable(vault, Credential, oldKey, newKey, db.credentials)
    && CanRekeyTable(vault, Asset, oldKey, newKey, db.assets)
  }

  function RekeyedDb(vault: Vault, oldKey: Bytes, newKey: Bytes, db: Db): Db
    requires CanRekey(vault, oldKey, newKey, db)
  {
    Db(RekeyedTable(vault, Credential, oldKey, newKey, db.credentials),
       RekeyedTable(vault, Asset, oldKey, newKey, db.assets))
  }

  method RekeyRowOf(vault: Vault, kind: Kind, oldKey: Bytes, newKey: Bytes, stored: Row) returns (r: Outcome<Row>)
    ensures r.Ok? <==> Rekeyed(vault, kind, oldKey, newKey, stored).Ok?
    ensures r.Ok? ==> r == Rekeyed(vault, kind, oldKey, newKey, stored)
  {
    var item := new Item(stored);
    var _ :- item.Decrypt(vault, oldKey);
    var _ :- item.Encrypt(vault, kind, newKey);
    return Ok(Merge(stored, item.AsRow()));
  }

  method RekeyTable(vault: Vault, kind: Kind, oldKey: Bytes, newKey: Bytes, t: Table) returns (r: Outcome<Table>)
    ensures r.Ok? <==> CanRekeyTable(vault, kind, oldKey, newKey, t)
    ensures r.Ok? ==> r.value == RekeyedTable(vault, kind, oldKey, newKey, t)
  {
    var written := t;
    var todo := t.Keys;
    while todo != {}
      invariant todo <= t.Keys == written.Keys
      invariant forall id :: id in todo ==> written[id] == t[id]
      invariant forall id :: id in t && id !in todo ==>
        Rekeyed(vault, kind, oldKey, newKey, t[id]) == Ok(written[id])
      decreases |todo|
    {
      var id :| id in todo;
      var row :- RekeyRowOf(vault, kind, oldKey, newKey, t[id]);
      written := written[id := row];
      todo := todo - {id};
    }
    return Ok(written);
  }

  function EncryptedRow(vault: Vault, kind: Kind, key: Bytes, row: Row): Row
    requires GoodKey(key)
  {
    if row.encrypted then row else Merge(row, EncryptRow(vault, kind, key, row).value)
  }

  function EncryptedTable(vault: Vault, kind: Kind, key: Bytes, t: Table): Table
    requires GoodKey(key)
  {
    map id | id in t :: EncryptedRow(vault, kind, key, t[id])
  }

  function EncryptedDb(vault: Vault, key: Bytes, db: Db): Db
    requires GoodKey(key)
  {
    Db(EncryptedTable(vault, Credential, key, db.credentials), EncryptedTable(vault, Asset, key, db.assets))
  }

  method EncryptTable(vault: Vault, kind: Kind, key: Bytes, t: Table) returns (written: Table)
    requires GoodKey(key)
    ensures written == EncryptedTable(vault, kind, key, t)
  {
    written := t;
    var todo := t.Keys;
    while todo != {}
      invariant todo <= t.Keys == written.Keys
      invariant forall id :: id in todo ==> written[id] == t[id]
      invariant forall id :: id in t && id !in todo ==> written[id] == EncryptedRow(vault, kind, key, t[id])
      decreases |todo|
    {
      var id :| id in todo;
      todo := todo - {id};
      if t[id].encrypted {
        continue;
      }
      var row := EncryptRowOf(vault, kind, key, t[id]);
      written := written[id := row];
    }
  }

  method EncryptRowOf(vault: Vault, kind: Kind, key: Bytes, stored: Row) returns (row: Row)
    requires GoodKey(key) && !stored.encrypted
    ensures row == EncryptedRow(vault, kind, key, stored)
  {
    var item := new Item(stored);
    EncryptRowIsGood(vault, kind, key, stored);
    var r := item.Encrypt(vault, kind, key);
    return Merge(stored, item.AsRow());
  }

  // ---------- what re-keying does to one column ----------

  /** A sealed asset column whose plaintext is the empty string: the asset service will not seal it again,
      and gorm will not write the empty string. */
  predicate Stuck(vault: Vault, kind: Kind, oldKey: Bytes, encrypted: bool, v: Bytes)
  {
    kind.Asset? && encrypted && v != [] && v != DASH && vault.open(oldKey, v) == Ok([])
  }

  /** The stored column after a successful re-keying of its row. */
  function RekeyedField(vault: Vault, kind: Kind, oldKey: Bytes, newKey: Bytes, encrypted: bool, v: Bytes): Bytes
    requires GoodKey(newKey) && ReadField(vault, oldKey, encrypted, v).Ok?
  {
    var sealed := SealField(vault, kind, newKey, ReadField(vault, oldKey, encrypted, v).value).value;
    if sealed == [] then v else sealed
  }

  /** Under any two keys, right or wrong: a stuck column keeps its old bytes, and the new key reads what
      the old key read exactly when the column is not stuck or those old bytes happen to open to the empty
      string under the new key too. */
  lemma RekeyField(vault: Vault, kind: Kind, oldKey: Bytes, newKey: Bytes, encrypted: bool, v: Bytes)
    requires GoodKey(newKey) && ReadField(vault, oldKey, encrypted, v).Ok?
    ensures
      OpenField(vault, newKey, RekeyedField(vault, kind, oldKey, newKey, encrypted, v))
      == ReadField(vault, oldKey, encrypted, v)
      <==> !Stuck(vault, kind, oldKey, encrypted, v) || vault.open(newKey, v) == Ok([])
    ensures Stuck(vault, kind, oldKey, encrypted, v) ==>
      RekeyedField(vault, kind, oldKey, newKey, encrypted, v) == v
  {}

  /** A stuck column that the new key reads otherwise. */
  predicate Lost(vault: Vault, kind: Kind, oldKey: Bytes, newKey: Bytes, encrypted: bool, v: Bytes)
  {
    Stuck(vault, kind, oldKey, encrypted, v) && vault.open(newKey, v) != Ok([])
  }

  predicate RowLost(vault: Vault, kind: Kind, oldKey: Bytes, newKey: Bytes, row: Row)
  {
    || Lost(vault, kind, oldKey, newKey, row.encrypted, row.password)
    || Lost(vault, kind, oldKey, newKey, row.encrypted, row.privateKey)
    || Lost(vault, kind, oldKey, newKey, row.encrypted, row.passphrase)
  }

  predicate SamePlaintext(a: Outcome<Row>, b: Outcome<Row>) {
    a.Ok? && b.Ok? && a.value.(encrypted := true) == b.value.(encrypted := true)
  }

  /** Any old key, right or wrong, and any stored row: the row can be re-keyed exactly when the old key opens it,
      and then all three columns keep their plaintext exactly when none of them is lost. */
  lemma RekeyRow(vault: Vault, kind: Kind, oldKey: Bytes, newKey: Bytes, row: Row)
    requires GoodKey(newKey)
    ensures Rekeyed(vault, kind, oldKey, newKey, row).Ok? <==> DecryptRow(vault, oldKey, row).Ok?
    ensures DecryptRow(vault, oldKey, row).Ok? ==>
      (SamePlaintext(DecryptRow(vault, newKey, Rekeyed(vault, kind, oldKey, newKey, row).value),
                     DecryptRow(vault, oldKey, row))
       <==> !RowLost(vault, kind, oldKey, newKey, row))
  {
    if DecryptRow(vault, oldKey, row).Ok? {
      RekeyField(vault, kind, oldKey, newKey, row.encrypted, row.password);
      RekeyField(vault, kind, oldKey, newKey, row.encrypted, row.privateKey);
      RekeyField(vault, kind, oldKey, newKey, row.encrypted, row.passphrase);
    }
  }

  /** The new key reads in the second table what the old key reads in the first. */
  ghost predicate ReadsAlike(vault: Vault, oldKey: Bytes, newKey: Bytes, before: Table, after: Table) {
    && before.Keys == after.Keys
    && forall id :: id in before ==>
         SamePlaintext(DecryptRow(vault, newKey, after[id]), DecryptRow(vault, oldKey, before[id]))
  }

  lemma CanRekeyExactly(vault: Vault, kind: Kind, oldKey: Bytes, newKey: Bytes, t: Table)
    requires GoodKey(newKey)
    ensures CanRekeyTable(vault, kind, oldKey, newKey, t) <==> forall id :: id in t ==>
        DecryptRow(vault, oldKey, t[id]).Ok?
  {
    forall id | id in t
      ensures Rekeyed(vault, kind, oldKey, newKey, t[id]).Ok? <==> DecryptRow(vault, oldKey, t[id]).Ok?
    {
      RekeyRow(vault, kind, oldKey, newKey, t[id]);
    }
  }

  lemma RekeyTableExactly(vault: Vault, kind: Kind, oldKey: Bytes, newKey: Bytes, t: Table)
    requires GoodKey(newKey) && CanRekeyTable(vault, kind, oldKey, newKey, t)
    ensures ReadsAlike(vault, oldKey, newKey, t, RekeyedTable(vault, kind, oldKey, newKey, t))
            <==> forall id :: id in t ==> !RowLost(vault, kind, oldKey, newKey, t[id])
  {
    var after := RekeyedTable(vault, kind, oldKey, newKey, t);
    forall id | id in t
      ensures SamePlaintext(DecryptRow(vault, newKey, after[id]), DecryptRow(vault, oldKey, t[id]))
              <==> !RowLost(vault, kind, oldKey, newKey, t[id])
    {
      RekeyRow(vault, kind, oldKey, newKey, t[id]);
    }
  }

  /** Any database and any two keys: changing the key succeeds exactly when the old key opens every row; then
      every credential reads under the new key as it read under the old one, and so do all assets exactly when no
      asset column is lost. */
  lemma RekeyExactly(vault: Vault, oldKey: Bytes, newKey: Bytes, db: Db)
    requires GoodKey(newKey)
    ensures CanRekey(vault, oldKey, newKey, db) <==>
      && (forall id :: id in db.credentials ==> DecryptRow(vault, oldKey, db.credentials[id]).Ok?)
      && (forall id :: id in db.assets ==> DecryptRow(vault, oldKey, db.assets[id]).Ok?)
    ensures CanRekey(vault, oldKey, newKey, db) ==>
      var db' := RekeyedDb(vault, oldKey, newKey, db);
      && ReadsAlike(vault, oldKey, newKey, db.credentials, db'.credentials)
      && (ReadsAlike(vault, oldKey, newKey, db.assets, db'.assets)
          <==> forall id :: id in db.assets ==> !RowLost(vault, Asset, oldKey, newKey, db.assets[id]))
  {
    CanRekeyExactly(vault, Credential, oldKey, newKey, db.credentials);
    CanRekeyExactly(vault, Asset, oldKey, newKey, db.assets);
    if CanRekey(vault, oldKey, newKey, db) {
      RekeyTableExactly(vault, Credential, oldKey, newKey, db.credentials);
      RekeyTableExactly(vault, Asset, oldKey, newKey, db.assets);
    }
  }

  // ---------- every reachable database ----------

  /** A column that the services could have written under the key. */
  ghost predicate GoodField(vault: Vault, kind: Kind, key: Bytes, v: Bytes)
    requires GoodKey(key)
  {
    v == [] || v == DASH || exists p :: Sealable(kind, p) && v == vault.seal(key, p).value
  }

  ghost predicate GoodRow(vault: Vault, kind: Kind, key: Bytes, row: Row)
    requires GoodKey(key)
  {
    && row.encrypted
    && GoodField(vault, kind, key, row.password)
    && GoodField(vault, kind, key, row.privateKey)
    && GoodField(vault, kind, key, row.passphrase)
  }

  ghost predicate GoodTable(vault: Vault, kind: Kind, key: Bytes, t: Table)
    requires GoodKey(key)
  {
    forall id :: id in t ==> GoodRow(vault, kind, key, t[id])
  }

  ghost predicate AllSealed(vault: Vault, key: Bytes, db: Db)
    requires GoodKey(key)
  {
    GoodTable(vault, Credential, key, db.credentials) && GoodTable(vault, Asset, key, db.assets)
  }

  /** What the running server does to the two tables. A row is only ever written through Encrypt. */
  datatype Event =
    | Create(kind: Kind, id: string, item: Row)
    | Update(kind: Kind, id: string, item: Row)
    | Delete(kind: Kind, id: string)
    | Rekey(newKey: Bytes)

  function WithTable(db: Db, kind: Kind, t: Table): Db {
    if kind.Credential? then db.(credentials := t) else db.(assets := t)
  }

  function TableOf(db: Db, kind: Kind): Table {
    if kind.Credential? then db.credentials else db.assets
  }

  /** The database and the key in force after an event. */
  function Step(vault: Vault, key: Bytes, db: Db, e: Event): (r: (Db, Bytes))
    requires GoodKey(key)
  {
    match e
    case Create(kind, id, item) =>
      (match EncryptRow(vault, kind, key, item)
       case Ok(row) => (WithTable(db, kind, TableOf(db, kind)[id := row]), key)
       case _ => (db, key))
    case Update(kind, id, item) =>
      (match EncryptRow(vault, kind, key, item)
       case Ok(row) =>
         var t := TableOf(db, kind);
         if id in t then (WithTable(db, kind, t[id := Merge(t[id], row)]), key) else (db, key)
       case _ => (db, key))
    case Delete(kind, id) => (WithTable(db, kind, TableOf(db, kind) - {id}), key)
    case Rekey(newKey) =>
      if GoodKey(newKey) && CanRekey(vault, key, newKey, db)
      then (RekeyedDb(vault, key, newKey, db), newKey)
      else (db, key)
  }

  function Run(vault: Vault, key: Bytes, db: Db, events: seq<Event>): (r: (Db, Bytes))
    requires GoodKey(key)
    ensures GoodKey(r.1)
    decreases |events|
  {
    if events == [] then (db, key)
    else
      var (db', key') := Step(vault, key, db, events[0]);
      Run(vault, key', db', events[1..])
  }

  lemma EncryptRowIsGood(vault: Vault, kind: Kind, key: Bytes, row: Row)
    requires GoodKey(key)
    ensures EncryptRow(vault, kind, key, row).Ok? && GoodRow(vault, kind, key, EncryptRow(vault, kind, key, row).value)
  {}

  lemma GoodFieldOpens(vault: Vault, kind: Kind, key: Bytes, v: Bytes)
    requires GoodKey(key) && GoodField(vault, kind, key, v)
    ensures OpenField(vault, key, v).Ok? && !Stuck(vault, kind, key, true, v)
  {}

  /** A row written under the old key can be re-keyed, reads the same afterwards, and is then a row
      written under the new key. */
  lemma RekeyGoodRow(vault: Vault, kind: Kind, oldKey: Bytes, newKey: Bytes, row: Row)
    requires GoodKey(oldKey) && GoodKey(newKey) && GoodRow(vault, kind, oldKey, row)
    ensures Rekeyed(vault, kind, oldKey, newKey, row).Ok?
    ensures GoodRow(vault, kind, newKey, Rekeyed(vault, kind, oldKey, newKey, row).value)
    ensures DecryptRow(vault, newKey, Rekeyed(vault, kind, oldKey, newKey, row).value) == DecryptRow(vault, oldKey, row)
    ensures DecryptRow(vault, oldKey, row).Ok?
  {
    GoodFieldOpens(vault, kind, oldKey, row.password);
    GoodFieldOpens(vault, kind, oldKey, row.privateKey);
    GoodFieldOpens(vault, kind, oldKey, row.passphrase);
    RekeyRow(vault, kind, oldKey, newKey, row);
    var plain := DecryptRow(vault, oldKey, row).value;
    EncryptRowIsGood(vault, kind, newKey, plain);
  }

  ghost predicate SamePlaintexts(vault: Vault, oldKey: Bytes, newKey: Bytes, before: Table, after: Table) {
    && before.Keys == after.Keys
    && forall id :: id in before ==>
      && DecryptRow(vault, oldKey, before[id]).Ok?
      && DecryptRow(vault, newKey, after[id]) == DecryptRow(vault, oldKey, before[id])
  }

  lemma RekeyTablePreserves(vault: Vault, kind: Kind, oldKey: Bytes, newKey: Bytes, t: Table)
    requires GoodKey(oldKey) && GoodKey(newKey) && GoodTable(vault, kind, oldKey, t)
    ensures CanRekeyTable(vault, kind, oldKey, newKey, t)
    ensures GoodTable(vault, kind, newKey, RekeyedTable(vault, kind, oldKey, newKey, t))
    ensures SamePlaintexts(vault, oldKey, newKey, t, RekeyedTable(vault, kind, oldKey, newKey, t))
  {
    forall id | id in t
      ensures Rekeyed(vault, kind, oldKey, newKey, t[id]).Ok?
      ensures GoodRow(vault, kind, newKey, Rekeyed(vault, kind, oldKey, newKey, t[id]).value)
      ensures DecryptRow(vault, newKey, Rekeyed(vault, kind, oldKey, newKey, t[id]).value)
           == DecryptRow(vault, oldKey, t[id])
      ensures DecryptRow(vault, oldKey, t[id]).Ok?
    {
      RekeyGoodRow(vault, kind, oldKey, newKey, t[id]);
    }
  }

  /** The whole-database theorem: on a database the services wrote under the old key, changing the key
      always succeeds, keeps every row, and each column opens under the new key to exactly what it opened
      to under the old one. */
  lemma RekeyPreservesPlaintexts(vault: Vault, oldKey: Bytes, newKey: Bytes, db: Db)
    requires GoodKey(oldKey) && GoodKey(newKey) && AllSealed(vault, oldKey, db)
    ensures CanRekey(vault, oldKey, newKey, db)
    ensures
      var db' := RekeyedDb(vault, oldKey, newKey, db);
      && AllSealed(vault, newKey, db')
      && SamePlaintexts(vault, oldKey, newKey, db.credentials, db'.credentials)
      && SamePlaintexts(vault, oldKey, newKey, db.assets, db'.assets)
  {
    RekeyTablePreserves(vault, Credential, oldKey, newKey, db.credentials);
    RekeyTablePreserves(vault, Asset, oldKey, newKey, db.assets);
  }

  lemma MergeGood(vault: Vault, kind: Kind, key: Bytes, stored: Row, item: Row)
    requires GoodKey(key) && GoodRow(vault, kind, key, stored) && GoodRow(vault, kind, key, item)
    ensures GoodRow(vault, kind, key, Merge(stored, item))
  {}

  lemma StoreKeepsSealed(vault: Vault, key: Bytes, db: Db, kind: Kind, id: string, row: Row)
    requires GoodKey(key) && AllSealed(vault, key, db) && GoodRow(vault, kind, key, row)
    ensures AllSealed(vault, key, WithTable(db, kind, TableOf(db, kind)[id := row]))
  {}

  lemma StepKeepsSealed(vault: Vault, key: Bytes, db: Db, e: Event)
    requires GoodKey(key) && AllSealed(vault, key, db)
    ensures AllSealed(vault, Step(vault, key, db, e).1, Step(vault, key, db, e).0)
  {
    match e
    case Create(kind, id, item) =>
      EncryptRowIsGood(vault, kind, key, item);
      StoreKeepsSealed(vault, key, db, kind, id, EncryptRow(vault, kind, key, item).value);
    case Update(kind, id, item) =>
      EncryptRowIsGood(vault, kind, key, item);
      if id in TableOf(db, kind) {
        var row := EncryptRow(vault, kind, key, item).value;
        MergeGood(vault, kind, key, TableOf(db, kind)[id], row);
        StoreKeepsSealed(vault, key, db, kind, id, Merge(TableOf(db, kind)[id], row));
      }
    case Delete(_, _) =>
    case Rekey(newKey) =>
      if GoodKey(newKey) {
        RekeyPreservesPlaintexts(vault, key, newKey, db);
      }
  }

  /** Every database reachable from one sealed at start-up, through any history of creates, updates,
      deletes and key changes, is sealed under the key in force. */
  lemma {:induction false} RunKeepsSealed(vault: Vault, key: Bytes, db: Db, events: seq<Event>)
    requires GoodKey(key) && AllSealed(vault, key, db)
    ensures AllSealed(vault, Run(vault, key, db, events).1, Run(vault, key, db, events).0)
    decreases |events|
  {
    if events == [] {
    } else {
      StepKeepsSealed(vault, key, db, events[0]);
      var (db', key') := Step(vault, key, db, events[0]);
      RunKeepsSealed(vault, key', db', events[1..]);
    }
  }

  // ---------- what was written reads back ----------

  /** A reader with the key sees this text in the column. */
  predicate Reads(vault: Vault, key: Bytes, v: Bytes, text: Bytes) {
    if v == [] || v == DASH then v == text else vault.open(key, v) == Ok(text)
  }

  predicate RowReads(vault: Vault, key: Bytes, row: Row, text: Row) {
    && row.encrypted
    && Reads(vault, key, row.password, text.password)
    && Reads(vault, key, row.privateKey, text.privateKey)
    && Reads(vault, key, row.passphrase, text.passphrase)
  }

  /** One table has changed in one row at most, the other not at all. */
  predicate OnlyRow(before: Db, after: Db, kind: Kind, id: string) {
    && (kind.Credential? ==> after.assets == before.assets && OnlyKey(before.credentials, after.credentials, id))
    && (kind.Asset? ==> after.credentials == before.credentials && OnlyKey(before.assets, after.assets, id))
  }

  predicate OnlyKey(before: Table, after: Table, id: string) {
    && (forall k :: k in before && k != id ==> k in after && after[k] == before[k])
    && (forall k :: k in after && k != id ==> k in before)
  }

  /** A new row reads as it was given, column by column, and no other row changes. */
  lemma CreateReadsBack(vault: Vault, key: Bytes, db: Db, kind: Kind, id: string, row: Row)
    requires GoodKey(key)
    ensures var after := Step(vault, key, db, Create(kind, id, row)).0;
            && OnlyRow(db, after, kind, id)
            && (kind.Credential? ==> id in after.credentials && RowReads(vault, key, after.credentials[id], row))
            && (kind.Asset? ==> id in after.assets && RowReads(vault, key, after.assets[id], row))
  {}

  /** A column after an update: the credential service writes what it is given, the asset service keeps the old
      column for an empty one. */
  predicate ColumnUpdated(vault: Vault, kind: Kind, key: Bytes, before: Bytes, after: Bytes, given: Bytes) {
    if kind.Asset? && given == [] then after == before else Reads(vault, key, after, given)
  }

  predicate RowUpdated(vault: Vault, kind: Kind, key: Bytes, before: Row, after: Row, given: Row) {
    && after.encrypted
    && ColumnUpdated(vault, kind, key, before.password, after.password, given.password)
    && ColumnUpdated(vault, kind, key, before.privateKey, after.privateKey, given.privateKey)
    && ColumnUpdated(vault, kind, key, before.passphrase, after.passphrase, given.passphrase)
  }

  /** An updated row reads as given where something was given, and no other row changes. */
  lemma UpdateReadsBack(vault: Vault, key: Bytes, db: Db, kind: Kind, id: string, row: Row)
    requires GoodKey(key)
    ensures var after := Step(vault, key, db, Update(kind, id, row)).0;
            && OnlyRow(db, after, kind, id)
            && (kind.Credential? ==>
                  && (id in after.credentials <==> id in db.credentials)
                  && (id in db.credentials ==>
                        RowUpdated(vault, kind, key, db.credentials[id], after.credentials[id], row)))
            && (kind.Asset? ==>
                  && (id in after.assets <==> id in db.assets)
                  && (id in db.assets ==> RowUpdated(vault, kind, key, db.assets[id], after.assets[id], row)))
  {}

  /** The secrets that an asset's account type uses read as given. */
  lemma TypeChangeKeeps(vault: Vault, key: Bytes, db: Db, id: string, accountType: string, row: Row)
    requires GoodKey(key) && id in db.assets
    ensures var before, after := db.assets[id], Step(vault, key, db, Update(Asset, id, Blanked(accountType, row))).0;
            && OnlyRow(db, after, Asset, id) && id in after.assets
            && (accountType != "credential" && accountType != "custom" ==>
                  && ColumnUpdated(vault, Asset, key, before.privateKey, after.assets[id].privateKey, row.privateKey)
                  && (row.passphrase != [] ==> Reads(vault, key, after.assets[id].passphrase, row.passphrase)))
            && (accountType != "credential" && accountType != "private-key" && row.password != [] ==>
                  Reads(vault, key, after.assets[id].password, row.password))
            && (accountType !in {"credential", "private-key", "custom"} ==>
                  RowUpdated(vault, Asset, key, before, after.assets[id], row))
  {
    UpdateReadsBack(vault, key, db, Asset, id, Blanked(accountType, row));
  }

  lemma DeleteExactly(vault: Vault, key: Bytes, db: Db, kind: Kind, id: string)
    requires GoodKey(key)
    ensures var after := Step(vault, key, db, Delete(kind, id)).0;
            && OnlyRow(db, after, kind, id)
            && (if kind.Credential? then id !in after.credentials else id !in after.assets)
  {}

  /** The same history on a database that is not sealed. */
  function PlainStep(db: Db, e: Event): Db {
    match e
    case Create(kind, id, item) => WithTable(db, kind, TableOf(db, kind)[id := item.(encrypted := true)])
    case Update(kind, id, item) =>
      var t := TableOf(db, kind);
      if id in t then WithTable(db, kind, t[id := Overlaid(kind, t[id], item)]) else db
    case Delete(kind, id) => WithTable(db, kind, TableOf(db, kind) - {id})
    case Rekey(_) => db
  }

  function Overlaid(kind: Kind, row: Row, item: Row): Row {
    if kind.Credential? then item.(encrypted := true)
    else
      Row(if item.password == [] then row.password else item.password,
          if item.privateKey == [] then row.privateKey else item.privateKey,
          if item.passphrase == [] then row.passphrase else item.passphrase,
          true)
  }

  function PlainRun(db: Db, events: seq<Event>): Db
    decreases |events|
  {
    if events == [] then db else PlainRun(PlainStep(db, events[0]), events[1..])
  }

  ghost predicate TableReads(vault: Vault, key: Bytes, t: Table, plain: Table) {
    t.Keys == plain.Keys && forall id :: id in t ==> DecryptRow(vault, key, t[id]) == Ok(plain[id])
  }

  ghost predicate DbReads(vault: Vault, key: Bytes, db: Db, plain: Db) {
    TableReads(vault, key, db.credentials, plain.credentials) && TableReads(vault, key, db.assets, plain.assets)
  }

  lemma ReadsDecrypts(vault: Vault, key: Bytes, row: Row, text: Row)
    ensures RowReads(vault, key, row, text) <==>
            row.encrypted && DecryptRow(vault, key, row) == Ok(text.(encrypted := true))
  {}

  lemma StoreReads(vault: Vault, key: Bytes, db: Db, plain: Db, kind: Kind, id: string, row: Row, text: Row)
    requires DbReads(vault, key, db, plain) && DecryptRow(vault, key, row) == Ok(text)
    ensures DbReads(vault, key, WithTable(db, kind, TableOf(db, kind)[id := row]),
                    WithTable(plain, kind, TableOf(plain, kind)[id := text]))
  {}

  lemma UpdatedDecrypts(vault: Vault, kind: Kind, key: Bytes, before: Row, after: Row, text: Row, given: Row)
    requires RowUpdated(vault, kind, key, before, after, given)
    requires before.encrypted && DecryptRow(vault, key, before) == Ok(text)
    ensures DecryptRow(vault, key, after) == Ok(Overlaid(kind, text, given))
  {
    ReadsDecrypts(vault, key, before, text);
    ReadsDecrypts(vault, key, after, Overlaid(kind, text, given));
  }

  lemma CreateReads(vault: Vault, key: Bytes, db: Db, plain: Db, kind: Kind, id: string, item: Row)
    requires GoodKey(key) && DbReads(vault, key, db, plain)
    ensures DbReads(vault, key, Step(vault, key, db, Create(kind, id, item)).0,
                    PlainStep(plain, Create(kind, id, item)))
  {
    EncryptRowIsGood(vault, kind, key, item);
    var row := EncryptRow(vault, kind, key, item).value;
    CreateReadsBack(vault, key, db, kind, id, item);
    ReadsDecrypts(vault, key, row, item);
    StoreReads(vault, key, db, plain, kind, id, row, item.(encrypted := true));
  }

  lemma UpdateReads(vault: Vault, key: Bytes, db: Db, plain: Db, kind: Kind, id: string, item: Row)
    requires GoodKey(key) && AllSealed(vault, key, db) && DbReads(vault, key, db, plain)
    ensures DbReads(vault, key, Step(vault, key, db, Update(kind, id, item)).0,
                    PlainStep(plain, Update(kind, id, item)))
  {
    EncryptRowIsGood(vault, kind, key, item);
    if id in TableOf(db, kind) {
      var before, text := TableOf(db, kind)[id], TableOf(plain, kind)[id];
      var row := Merge(before, EncryptRow(vault, kind, key, item).value);
      UpdateReadsBack(vault, key, db, kind, id, item);
      UpdatedDecrypts(vault, kind, key, before, row, text, item);
      StoreReads(vault, key, db, plain, kind, id, row, Overlaid(kind, text, item));
    }
  }

  lemma StepReads(vault: Vault, key: Bytes, db: Db, plain: Db, e: Event)
    requires GoodKey(key) && AllSealed(vault, key, db) && DbReads(vault, key, db, plain)
    ensures DbReads(vault, Step(vault, key, db, e).1, Step(vault, key, db, e).0, PlainStep(plain, e))
  {
    match e
    case Create(kind, id, item) =>
      CreateReads(vault, key, db, plain, kind, id, item);
      EncryptRowIsGood(vault, kind, key, item);
    case Update(kind, id, item) =>
      UpdateReads(vault, key, db, plain, kind, id, item);
      EncryptRowIsGood(vault, kind, key, item);
    case Delete(_, _) =>
    case Rekey(newKey) =>
      if GoodKey(newKey) {
        RekeyPreservesPlaintexts(vault, key, newKey, db);
      }
  }

  /** Sealing is invisible: after every history of creates, updates, deletes and key changes the database reads,
      under the key in force, as one that holds plain text and never heard of keys. */
  lemma {:induction false} RunReadsBack(vault: Vault, key: Bytes, db: Db, plain: Db, events: seq<Event>)
    requires GoodKey(key) && AllSealed(vault, key, db) && DbReads(vault, key, db, plain)
    ensures DbReads(vault, Run(vault, key, db, events).1, Run(vault, key, db, events).0, PlainRun(plain, events))
    decreases |events|
  {
    if events == [] {
    } else {
      StepReads(vault, key, db, plain, events[0]);
      StepKeepsSealed(vault, key, db, events[0]);
      var (db', key') := Step(vault, key, db, events[0]);
      RunReadsBack(vault, key', db', PlainStep(plain, events[0]), events[1..]);
    }
  }

  lemma EncryptTableSeals(vault: Vault, kind: Kind, key: Bytes, t: Table)
    requires GoodKey(key) && forall id :: id in t && t[id].encrypted ==> GoodRow(vault, kind, key, t[id])
    ensures GoodTable(vault, kind, key, EncryptedTable(vault, kind, key, t))
    ensures forall id :: id in t ==>
      SamePlaintext(DecryptRow(vault, key, EncryptedTable(vault, kind, key, t)[id]), DecryptRow(vault, key, t[id]))
  {
    forall id | id in t
      ensures GoodRow(vault, kind, key, EncryptedRow(vault, kind, key, t[id]))
      ensures SamePlaintext(DecryptRow(vault, key, EncryptedRow(vault, kind, key, t[id])),
                            DecryptRow(vault, key, t[id]))
    {
      if t[id].encrypted {
        RekeyGoodRow(vault, kind, key, key, t[id]);
      } else {
        EncryptRowIsGood(vault, kind, key, t[id]);
        RekeyRow(vault, kind, key, key, t[id]);
      }
    }
  }

  /** Start-up: a database whose sealed rows were sealed under the configured key, and whose other rows are
      plain text, comes out sealed throughout and reads as before. */
  lemma EncryptAllSeals(vault: Vault, key: Bytes, db: Db)
    requires GoodKey(key)
    requires forall id :: id in db.credentials && db.credentials[id].encrypted ==>
      GoodRow(vault, Credential, key, db.credentials[id])
    requires forall id :: id in db.assets && db.assets[id].encrypted ==> GoodRow(vault, Asset, key, db.assets[id])
    ensures AllSealed(vault, key, EncryptedDb(vault, key, db))
    ensures forall id :: id in db.credentials ==>
      SamePlaintext(DecryptRow(vault, key, EncryptedDb(vault, key, db).credentials[id]),
                    DecryptRow(vault, key, db.credentials[id]))
    ensures forall id :: id in db.assets ==>
      SamePlaintext(DecryptRow(vault, key, EncryptedDb(vault, key, db).assets[id]),
                    DecryptRow(vault, key, db.assets[id]))
  {
    EncryptTableSeals(vault, Credential, key, db.credentials);
    EncryptTableSeals(vault, Asset, key, db.assets);
  }
}
