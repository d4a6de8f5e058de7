/** The parameters of a remote desktop session: the asset's stored attributes over the global properties over the
    base configuration. The maps are iterated in any order. */
module Parameters {
  import opened Wrappers

  // ---------- names ----------

  const ENABLE_DRIVE := "enable-drive"
  const DRIVE_NAME := "drive-name"
  const DRIVE_PATH := "drive-path"

  const SSH_NAMES := ["font-name", "font-size", "color-scheme", "backspace", "terminal-type", "ssh-mode",
                      "socks-proxy-enable", "socks-proxy-host", "socks-proxy-port", "socks-proxy-username",
                      "socks-proxy-password"]
  const RDP_NAMES := ["domain", "remote-app", "remote-app-dir", "remote-app-args", ENABLE_DRIVE, DRIVE_PATH,
                      "color-depth", "force-lossless", "preconnection-id", "preconnection-blob"]
  const VNC_NAMES := ["color-depth", "cursor", "swap-red-blue", "dest-host", "dest-port"]
  const TELNET_NAMES := ["font-name", "font-size", "color-scheme", "backspace", "terminal-type",
                         "username-regex", "password-regex", "login-success-regex", "login-failure-regex"]
  const KUBERNETES_NAMES := ["font-name", "font-size", "color-scheme", "backspace", "terminal-type",
                             "namespace", "pod", "container", "use-ssl", "client-cert", "client-key", "ca-cert",
                             "ignore-cert"]

  function ParameterNames(protocol: string): seq<string> {
    match protocol
    case "ssh" => SSH_NAMES
    case "rdp" => RDP_NAMES
    case "vnc" => VNC_NAMES
    case "telnet" => TELNET_NAMES
    case "kubernetes" => KUBERNETES_NAMES
    case _ => []
  }

  /** No protocol has the drive's name among its parameters. */
  lemma NoDriveName(protocol: string)
    ensures DRIVE_NAME !in ParameterNames(protocol)
  {}

  // ---------- stored attributes ----------

  datatype Attribute = Attribute(assetId: string, name: string, value: string)

  /** A value of the request: shown is what formatting yields for a value that is not a text. */
  datatype Json = Null | Text(text: string) | Other(shown: string)

  /** A parameter is stored when it is given and not the empty text. */
  predicate Given(m: map<string, Json>, name: string) {
    name in m && m[name] != Null && m[name] != Text("")
  }

  function Show(v: Json): string {
    match v
    case Null => "<nil>"
    case Text(s) => s
    case Other(s) => s
  }

  function Data(assetId: string, names: seq<string>, m: map<string, Json>): seq<Attribute> {
    if names == [] then []
    else
      var n := names[|names| - 1];
      Data(assetId, names[..|names| - 1], m) + if Given(m, n) then [Attribute(assetId, n, Show(m[n]))] else []
  }

  function Without(rows: seq<Attribute>, assetId: string): seq<Attribute> {
    if rows == [] then []
    else (if rows[0].assetId == assetId then [] else [rows[0]]) + Without(rows[1..], assetId)
  }

  function ForAsset(rows: seq<Attribute>, assetId: string): seq<Attribute> {
    if rows == [] then []
    else (if rows[0].assetId == assetId then [rows[0]] else []) + ForAsset(rows[1..], assetId)
  }

  /** Rows read into a map one by one. */
  function Read(rows: seq<Attribute>): map<string, string> {
    if rows == [] then map[]
    else Read(rows[..|rows| - 1])[rows[|rows| - 1].name := rows[|rows| - 1].value]
  }

  /** The properties that are parameters of the protocol. */
  function Properties(properties: map<string, string>, names: seq<string>): map<string, string> {
    map name | name in properties && name in names :: properties[name]
  }

  class AssetRepository {
    var protocols: map<string, string>
    var rows: seq<Attribute>

    constructor (protocols: map<string, string>)
      ensures this.protocols == protocols && rows == []
    {
      this.protocols, rows := protocols, [];
    }

    method UpdateAttributes(assetId: string, protocol: string, m: map<string, Json>)
      modifies this`rows
      ensures rows == AfterUpdate(old(rows), assetId, ParameterNames(protocol), m)
    {
      var data: seq<Attribute> := [];
      var parameterNames := ParameterNames(protocol);
      for i := 0 to |parameterNames|
        invariant data == Data(assetId, parameterNames[..i], m)
      {
        var name := parameterNames[i];
        assert parameterNames[..i + 1][..i] == parameterNames[..i];
        if name in m && m[name] != Null && m[name] != Text("") {
          data := data + [Attribute(assetId, name, Show(m[name]))];
        }
      }
      assert parameterNames[..|parameterNames|] == parameterNames;
      rows := Without(rows, assetId) + data;
    }

    method FindAssetAttrMapByAssetId(assetId: string, propertiesMap: map<string, string>)
      returns (r: Outcome<map<string, string>>)
      ensures r == if assetId in protocols
                   then Ok(Attributes(rows, propertiesMap, assetId, ParameterNames(protocols[assetId])))
                   else Err
    {
      if assetId !in protocols {
        return Err;
      }
      var attributes := ForAsset(rows, assetId);
      var attributeMap := SelectProperties(propertiesMap, ParameterNames(protocols[assetId]));
      attributeMap := Override(attributeMap, attributes);
      return Ok(attributeMap);
    }
  }

  /** The first loop: the properties among the protocol's parameters. */
  method SelectProperties(propertiesMap: map<string, string>, parameterNames: seq<string>)
    returns (attributeMap: map<string, string>)
    ensures attributeMap == Properties(propertiesMap, parameterNames)
  {
    attributeMap := map[];
    var todo := propertiesMap.Keys;
    while todo != {}
      invariant todo <= propertiesMap.Keys
      invariant attributeMap == Properties(propertiesMap - todo, parameterNames)
      decreases |todo|
    {
      var name :| name in todo;
      if name in parameterNames {
        attributeMap := attributeMap[name := propertiesMap[name]];
      }
      todo := todo - {name};
    }
    assert propertiesMap - todo == propertiesMap;
  }

  /** The second loop: the stored attributes. */
  method Override(base: map<string, string>, attributes: seq<Attribute>) returns (attributeMap: map<string, string>)
    ensures attributeMap == base + Read(attributes)
  {
    attributeMap := base;
    for i := 0 to |attributes|
      invariant attributeMap == base + Read(attributes[..i])
    {
      assert attributes[..i + 1][..i] == attributes[..i];
      attributeMap := attributeMap[attributes[i].name := attributes[i].value];
    }
    assert attributes[..|attributes|] == attributes;
  }

  /** The stored attributes of an asset over the global properties. */
  function Attributes(rows: seq<Attribute>, properties: map<string, string>, assetId: string, names: seq<string>)
    : map<string, string>
  {
    Properties(properties, names) + Read(ForAsset(rows, assetId))
  }

  function Stored(names: seq<string>, m: map<string, Json>): map<string, string> {
    map n | n in names && Given(m, n) :: Show(m[n])
  }

  // ---------- what storing means for reading ----------

  lemma {:induction false} ForAssetConcat(a: seq<Attribute>, b: seq<Attribute>, assetId: string)
    ensures ForAsset(a + b, assetId) == ForAsset(a, assetId) + ForAsset(b, assetId)
  {
    if a == [] {
      assert a + b == b;
    } else {
      assert (a + b)[1..] == a[1..] + b;
      ForAssetConcat(a[1..], b, assetId);
      var first := if a[0].assetId == assetId then [a[0]] else [];
      var x, y := ForAsset(a[1..], assetId), ForAsset(b, assetId);
      assert first + (x + y) == (first + x) + y;
    }
  }

  lemma {:induction false} ForAssetWithout(rows: seq<Attribute>, assetId: string, other: string)
    ensures ForAsset(Without(rows, assetId), other) == if other == assetId then [] else ForAsset(rows, other)
  {
    if rows == [] {
    } else {
      ForAssetWithout(rows[1..], assetId, other);
      if rows[0].assetId != assetId {
        assert ([rows[0]] + Without(rows[1..], assetId))[1..] == Without(rows[1..], assetId);
      } else {
        assert [] + Without(rows[1..], assetId) == Without(rows[1..], assetId);
      }
    }
  }

  lemma {:induction false} ForAssetData(assetId: string, names: seq<string>, m: map<string, Json>, other: string)
    ensures ForAsset(Data(assetId, names, m), other) == if other == assetId then Data(assetId, names, m) else []
  {
    if names == [] {
    } else {
      var before, n := names[..|names| - 1], names[|names| - 1];
      ForAssetData(assetId, before, m, other);
      if Given(m, n) {
        var row := Attribute(assetId, n, Show(m[n]));
        ForAssetConcat(Data(assetId, before, m), [row], other);
        assert ForAsset([row], other) == if other == assetId then [row] else [];
      } else {
        assert Data(assetId, names, m) == Data(assetId, before, m);
      }
    }
  }

  lemma StoredSnoc(names: seq<string>, n: string, m: map<string, Json>)
    ensures Stored(names + [n], m) ==
            if Given(m, n) then Stored(names, m)[n := Show(m[n])] else Stored(names, m)
  {}

  lemma {:induction false} ReadData(assetId: string, names: seq<string>, m: map<string, Json>)
    ensures Read(Data(assetId, names, m)) == Stored(names, m)
  {
    if names == [] {
    } else {
      var before, n := names[..|names| - 1], names[|names| - 1];
      ReadData(assetId, before, m);
      StoredSnoc(before, n, m);
      assert names == before + [n];
      var rows := Data(assetId, before, m);
      if Given(m, n) {
        var row := Attribute(assetId, n, Show(m[n]));
        assert Data(assetId, names, m) == rows + [row] && (rows + [row])[..|rows|] == rows;
      } else {
        assert Data(assetId, names, m) == rows;
      }
    }
  }

  function AfterUpdate(rows: seq<Attribute>, assetId: string, names: seq<string>, m: map<string, Json>)
    : seq<Attribute>
  {
    Without(rows, assetId) + Data(assetId, names, m)
  }

  /** After an update the asset's attributes are the given parameters of its protocol over the properties. */
  lemma UpdateThenFind(rows: seq<Attribute>, properties: map<string, string>, assetId: string, names: seq<string>,
                       m: map<string, Json>)
    ensures Attributes(AfterUpdate(rows, assetId, names, m), properties, assetId, names)
         == Properties(properties, names) + Stored(names, m)
  {
    var data := Data(assetId, names, m);
    ForAssetConcat(Without(rows, assetId), data, assetId);
    ForAssetWithout(rows, assetId, assetId);
    ForAssetData(assetId, names, m, assetId);
    ReadData(assetId, names, m);
    assert [] + data == data;
  }

  /** Name by name: a text or another value that was given is read, and where nothing or the empty text was given the
      property is; a name that is no parameter of the protocol is not read at all. */
  lemma ReadAfterUpdate(rows: seq<Attribute>, properties: map<string, string>, assetId: string, names: seq<string>,
                        m: map<string, Json>, n: string)
    ensures var read := Attributes(AfterUpdate(rows, assetId, names, m), properties, assetId, names);
            && (n !in names ==> n !in read)
            && (n in names && n in m && m[n].Text? && m[n].text != "" ==> n in read && read[n] == m[n].text)
            && (n in names && n in m && m[n].Other? ==> n in read && read[n] == m[n].shown)
            && (n in names && (n !in m || m[n] == Null || m[n] == Text("")) ==>
                  if n in properties then n in read && read[n] == properties[n] else n !in read)
  {
    UpdateThenFind(rows, properties, assetId, names, m);
  }

  /** Every other asset's attributes are unchanged. */
  lemma UpdateKeepsOthers(rows: seq<Attribute>, assetId: string, names: seq<string>, m: map<string, Json>,
                          other: string)
    requires other != assetId
    ensures ForAsset(AfterUpdate(rows, assetId, names, m), other) == ForAsset(rows, other)
  {
    var data := Data(assetId, names, m);
    ForAssetConcat(Without(rows, assetId), data, other);
    ForAssetWithout(rows, assetId, other);
    ForAssetData(assetId, names, m, other);
    assert ForAsset(rows, other) + [] == ForAsset(rows, other);
  }

  /** Stored names are parameters of some protocol. */
  ghost predicate KnownNames(rows: seq<Attribute>) {
    forall i :: 0 <= i < |rows| ==> exists protocol :: rows[i].name in ParameterNames(protocol)
  }

  lemma {:induction false} DataNames(assetId: string, names: seq<string>, m: map<string, Json>)
    ensures forall i :: 0 <= i < |Data(assetId, names, m)| ==> Data(assetId, names, m)[i].name in names
  {
    if names == [] {
    } else {
      DataNames(assetId, names[..|names| - 1], m);
    }
  }

  lemma {:induction false} WithoutNames(rows: seq<Attribute>, assetId: string)
    requires KnownNames(rows)
    ensures KnownNames(Without(rows, assetId))
  {
    if rows == [] {
    } else {
      assert KnownNames(rows[1..]) by {
        forall i | 0 <= i < |rows[1..]| ensures exists protocol :: rows[1..][i].name in ParameterNames(protocol) {
          assert rows[1..][i] == rows[i + 1];
        }
      }
      WithoutNames(rows[1..], assetId);
    }
  }

  lemma UpdateKeepsNames(rows: seq<Attribute>, assetId: string, protocol: string, m: map<string, Json>)
    requires KnownNames(rows)
    ensures KnownNames(AfterUpdate(rows, assetId, ParameterNames(protocol), m))
  {
    WithoutNames(rows, assetId);
    DataNames(assetId, ParameterNames(protocol), m);
  }

  lemma {:induction false} ReadNames(rows: seq<Attribute>, assetId: string)
    ensures forall n :: n in Read(ForAsset(rows, assetId)) ==> exists i :: 0 <= i < |rows| && rows[i].name == n
  {
    ForAssetNames(rows, assetId);
    ReadRowNames(ForAsset(rows, assetId));
    forall n | n in Read(ForAsset(rows, assetId)) ensures exists i :: 0 <= i < |rows| && rows[i].name == n {
      var k :| 0 <= k < |ForAsset(rows, assetId)| && ForAsset(rows, assetId)[k].name == n;
      assert ForAsset(rows, assetId)[k] in rows;
    }
  }

  lemma {:induction false} ForAssetNames(rows: seq<Attribute>, assetId: string)
    ensures forall r :: r in ForAsset(rows, assetId) ==> r in rows
  {
    if rows == [] {
    } else {
      ForAssetNames(rows[1..], assetId);
    }
  }

  lemma {:induction false} ReadRowNames(rows: seq<Attribute>)
    ensures forall n :: n in Read(rows) ==> exists i :: 0 <= i < |rows| && rows[i].name == n
  {
    if rows == [] {
    } else {
      var before := rows[..|rows| - 1];
      ReadRowNames(before);
      forall n | n in Read(rows) ensures exists i :: 0 <= i < |rows| && rows[i].name == n {
        if n != rows[|rows| - 1].name {
          assert n in Read(before);
          var i :| 0 <= i < |before| && before[i].name == n;
          assert rows[i].name == n;
        }
      }
    }
  }

  /** So the drive's name is never an attribute. */
  lemma NoDriveNameAttribute(rows: seq<Attribute>, properties: map<string, string>, assetId: string, protocol: string)
    requires KnownNames(rows)
    ensures DRIVE_NAME !in Attributes(rows, properties, assetId, ParameterNames(protocol))
  {
    NoDriveName(protocol);
    ReadNames(rows, assetId);
    if DRIVE_NAME in Read(ForAsset(rows, assetId)) {
      var i :| 0 <= i < |rows| && rows[i].name == DRIVE_NAME;
      var p :| rows[i].name in ParameterNames(p);
      NoDriveName(p);
    }
  }

  // ---------- a backup of an asset ----------

  /** The keys under which export writes an asset's columns. */
  const COLUMNS := ["id", "name", "protocol", "ip", "port", "accountType", "username", "password", "credentialId",
                    "privateKey", "passphrase", "description", "active", "activeMessage", "created",
                    "lastAccessTime", "tags", "owner", "encrypted", "accessGatewayId"]

  /** The asset as the file holds it: its columns, overridden by what is read as its attributes. */
  function Exported(columns: map<string, Json>, attributes: map<string, string>): map<string, Json> {
    columns + map n | n in attributes :: Text(attributes[n])
  }

  /** What import keeps of the attributes. */
  function Kept(attributes: map<string, string>, names: seq<string>): map<string, string> {
    map n | n in names && n in attributes && attributes[n] != "" :: attributes[n]
  }

  /** The length and the first letters tell a column from a parameter. */
  predicate ColumnLike(n: string) {
    match |n|
    case 2 => true
    case 4 => true
    case 5 => true
    case 6 => n[0] == 'a'
    case 7 => n[1] == 'r'
    case 8 => n[0] != 's'
    case 9 => n[0] == 'e'
    case 10 => n[0] == 'p'
    case 11 => n[0] == 'a' || n[0] == 'd'
    case 12 => n[1] == 'r'
    case 13 => n[0] == 'a'
    case 14 => n[0] == 'l'
    case 15 => n[0] == 'a'
    case _ => false
  }

  lemma ColumnsAreLikeColumns(n: string)
    requires n in COLUMNS
    ensures ColumnLike(n)
  {}

  lemma TextParametersAreNot(n: string)
    requires n in SSH_NAMES || n in TELNET_NAMES
    ensures !ColumnLike(n)
  {}

  lemma ScreenParametersAreNot(n: string)
    requires n in RDP_NAMES || n in VNC_NAMES
    ensures !ColumnLike(n)
  {}

  lemma KubernetesParametersAreNot(n: string)
    requires n in KUBERNETES_NAMES
    ensures !ColumnLike(n)
  {}

  lemma ParametersAreNot(protocol: string, n: string)
    requires n in ParameterNames(protocol)
    ensures !ColumnLike(n)
  {
    match protocol
    case "ssh" => TextParametersAreNot(n);
    case "telnet" => TextParametersAreNot(n);
    case "kubernetes" => KubernetesParametersAreNot(n);
    case _ => ScreenParametersAreNot(n);
  }

  /** No parameter has the name of a column. */
  lemma NoColumnName(protocol: string, n: string)
    requires n in ParameterNames(protocol)
    ensures n !in COLUMNS
  {
    ParametersAreNot(protocol, n);
    if n in COLUMNS {
      ColumnsAreLikeColumns(n);
    }
  }

  /** Import creates the asset with a new id from the exported map, on a server with rows and properties of its own. */
  function AfterImport(rows: seq<Attribute>, newId: string, protocol: string, columns: map<string, Json>,
                       attributes: map<string, string>): seq<Attribute>
  {
    AfterUpdate(rows, newId, ParameterNames(protocol), Exported(columns, attributes))
  }

  /** Whatever was read as the asset's attributes, the source's properties among them, are attributes of the
      imported asset, unless empty or of another protocol; the target's properties show through the gaps. */
  lemma ImportThenFind(attributes: map<string, string>, columns: map<string, Json>, rows: seq<Attribute>,
                       properties: map<string, string>, newId: string, protocol: string)
    requires forall n :: n in columns ==> n in COLUMNS
    ensures var names, after := ParameterNames(protocol), AfterImport(rows, newId, protocol, columns, attributes);
            Attributes(after, properties, newId, names) == Properties(properties, names) + Kept(attributes, names)
  {
    var names, m := ParameterNames(protocol), Exported(columns, attributes);
    UpdateThenFind(rows, properties, newId, names, m);
    assert Stored(names, m) == Kept(attributes, names) by {
      forall n | n in names ensures (Given(m, n) <==> n in Kept(attributes, names)) {
        NoColumnName(protocol, n);
      }
    }
  }

  /** The parameter reads on the target as it reads on the source. */
  predicate ReadsAlike(attributes: map<string, string>, properties: map<string, string>, name: string) {
    if name in attributes then attributes[name] != "" || (name in properties && properties[name] == "")
    else name !in properties
  }

  /** An asset's attributes survive export and import exactly when all are parameters of its protocol and each
      that is empty or missing on the source is so among the target's properties. */
  lemma RoundTripExactly(attributes: map<string, string>, columns: map<string, Json>, rows: seq<Attribute>,
                         properties: map<string, string>, newId: string, protocol: string)
    requires forall n :: n in columns ==> n in COLUMNS
    ensures var names, after := ParameterNames(protocol), AfterImport(rows, newId, protocol, columns, attributes);
            Attributes(after, properties, newId, names) == attributes <==>
            && (forall n :: n in attributes ==> n in names)
            && (forall n :: n in names ==> ReadsAlike(attributes, properties, n))
  {
    var names := ParameterNames(protocol);
    ImportThenFind(attributes, columns, rows, properties, newId, protocol);
    MergedExactly(attributes, properties, names);
  }

  /** A drive's storage is named by its id on the source, while import gives every storage a new one. */
  lemma DriveKeepsOldStorage(attributes: map<string, string>, columns: map<string, Json>, rows: seq<Attribute>,
                             properties: map<string, string>, newId: string, s: Session)
    requires forall n :: n in columns ==> n in COLUMNS
    requires DRIVE_PATH in attributes && attributes[DRIVE_PATH] != "" && attributes[DRIVE_PATH] != "-"
    ensures var after := AfterImport(rows, newId, "rdp", columns, attributes);
            StorageId(Attributes(after, properties, newId, RDP_NAMES), s) == attributes[DRIVE_PATH]
  {
    ImportThenFind(attributes, columns, rows, properties, newId, "rdp");
    assert RDP_NAMES[5] == DRIVE_PATH;
  }

  lemma MergedExactly(attributes: map<string, string>, properties: map<string, string>, names: seq<string>)
    ensures Properties(properties, names) + Kept(attributes, names) == attributes <==>
            && (forall n :: n in attributes ==> n in names)
            && (forall n :: n in names ==> ReadsAlike(attributes, properties, n))
  {
    var merged := Properties(properties, names) + Kept(attributes, names);
    if merged == attributes {
      forall n | n in names ensures ReadsAlike(attributes, properties, n) {
        assert n in merged <==> n in attributes;
      }
    }
    if
      && (forall n :: n in attributes ==> n in names)
      && (forall n :: n in names ==> ReadsAlike(attributes, properties, n))
    {
      forall n | n in names ensures (n in merged <==> n in attributes) && (n in merged ==> merged[n] == attributes[n]) {
        assert ReadsAlike(attributes, properties, n);
      }
      assert merged == attributes;
    }
  }

  // ---------- the session's parameters ----------

  type Config = map<string, string>

  /** drivePath is the directory of a storage under the base path. */
  datatype Session = Session(creator: string, drivePath: string -> string)

  predicate Drive(attributes: map<string, string>) {
    ENABLE_DRIVE in attributes && attributes[ENABLE_DRIVE] == "true"
  }

  /** The storage that the drive shows: the attribute's, or the session creator's own. */
  function StorageId(attributes: map<string, string>, s: Session): string {
    if DRIVE_PATH !in attributes || attributes[DRIVE_PATH] == "" || attributes[DRIVE_PATH] == "-" then s.creator
    else attributes[DRIVE_PATH]
  }

  function Derived(attributes: map<string, string>, s: Session): Config {
    map[ENABLE_DRIVE := "true", DRIVE_NAME := "Filesystem", DRIVE_PATH := s.drivePath(StorageId(attributes, s))]
  }

  /** One round of the loop. */
  function SetOne(c: Config, attributes: map<string, string>, s: Session, key: string): Config
    requires key in attributes
  {
    if key == DRIVE_PATH then c
    else if key == ENABLE_DRIVE && attributes[key] == "true" then c + Derived(attributes, s)
    else c[key := attributes[key]]
  }

  function SetAll(c: Config, attributes: map<string, string>, s: Session, order: seq<string>): Config
    requires forall k :: k in order ==> k in attributes
  {
    if order == [] then c
    else SetOne(SetAll(c, attributes, s, order[..|order| - 1]), attributes, s, order[|order| - 1])
  }

  /** The base configuration overridden by the attributes, with the drive's parameters derived when it is
      enabled. */
  function Merged(c: Config, attributes: map<string, string>, s: Session): Config {
    c + (attributes - {DRIVE_PATH}) + if Drive(attributes) then Derived(attributes, s) else map[]
  }

  /** The loop's result can depend on the order only through an attribute for the derived name. */
  predicate OrderFree(attributes: map<string, string>) {
    !(Drive(attributes) && DRIVE_NAME in attributes && attributes[DRIVE_NAME] != "Filesystem")
  }

  ghost predicate IsOrder(attributes: map<string, string>, order: seq<string>) {
    && (forall k :: k in order <==> k in attributes)
    && (forall i, j :: 0 <= i < j < |order| ==> order[i] != order[j])
  }

  function Part(attributes: map<string, string>, done: set<string>): map<string, string> {
    map k | k in attributes && k in done :: attributes[k]
  }

  /** What the loop has done after some of the keys. */
  function MergedFor(c: Config, attributes: map<string, string>, s: Session, done: set<string>): Config {
    c + (Part(attributes, done) - {DRIVE_PATH})
    + if Drive(attributes) && ENABLE_DRIVE in done then Derived(attributes, s) else map[]
  }

  lemma OverrideLater(c: Config, d: Config, k: string, v: string)
    requires k in d ==> d[k] == v
    ensures c[k := v] + d == (c + d)[k := v]
  {}

  lemma OverrideHidden(c: Config, d: Config, k: string, v: string)
    requires k in d
    ensures c[k := v] + d == c + d
  {}

  lemma PartGrows(c: Config, attributes: map<string, string>, done: set<string>, key: string)
    requires key in attributes && key !in done
    ensures var before, after := Part(attributes, done) - {DRIVE_PATH}, Part(attributes, done + {key}) - {DRIVE_PATH};
            c + after == if key == DRIVE_PATH then c + before else (c + before)[key := attributes[key]]
  {}

  lemma SetOneMerges(c: Config, attributes: map<string, string>, s: Session, done: set<string>, key: string)
    requires OrderFree(attributes) && key in attributes && key !in done
    ensures SetOne(MergedFor(c, attributes, s, done), attributes, s, key)
         == MergedFor(c, attributes, s, done + {key})
  {
    var x := c + (Part(attributes, done) - {DRIVE_PATH});
    var d := Derived(attributes, s);
    PartGrows(c, attributes, done, key);
    assert x + map[] == x && x[key := attributes[key]] + map[] == x[key := attributes[key]];
    if key == DRIVE_PATH {
    } else if key == ENABLE_DRIVE && attributes[key] == "true" {
      OverrideHidden(x, d, key, attributes[key]);
    } else if Drive(attributes) && ENABLE_DRIVE in done {
      OverrideLater(x, d, key, attributes[key]);
    }
  }

  lemma MergedForEnds(c: Config, attributes: map<string, string>, s: Session)
    ensures MergedFor(c, attributes, s, {}) == c
    ensures MergedFor(c, attributes, s, attributes.Keys) == Merged(c, attributes, s)
  {}

  /** The body of the loop. */
  method SetParameter(c: Config, attributes: map<string, string>, s: Session, key: string)
    returns (parameters: Config)
    requires key in attributes
    ensures parameters == SetOne(c, attributes, s, key)
  {
    parameters := c;
    if key == DRIVE_PATH {
      return;
    }
    if key == ENABLE_DRIVE && attributes[key] == "true" {
      var storageId := if DRIVE_PATH in attributes then attributes[DRIVE_PATH] else "";
      if storageId == "" || storageId == "-" {
        storageId := s.creator;
      }
      parameters := parameters[ENABLE_DRIVE := "true"];
      parameters := parameters[DRIVE_NAME := "Filesystem"];
      parameters := parameters[DRIVE_PATH := s.drivePath(storageId)];
    } else {
      parameters := parameters[key := attributes[key]];
    }
  }

  method SetAssetConfig(c: Config, attributes: map<string, string>, s: Session) returns (parameters: Config)
    ensures OrderFree(attributes) ==> parameters == Merged(c, attributes, s)
  {
    parameters := c;
    var todo := attributes.Keys;
    ghost var done: set<string> := {};
    MergedForEnds(c, attributes, s);
    while todo != {}
      invariant todo <= attributes.Keys && done == attributes.Keys - todo
      invariant OrderFree(attributes) ==> parameters == MergedFor(c, attributes, s, done)
      decreases |todo|
    {
      var key :| key in todo;
      ghost var before := parameters;
      parameters := SetParameter(parameters, attributes, s, key);
      if OrderFree(attributes) {
        assert parameters == MergedFor(c, attributes, s, done + {key}) by {
          SetOneMerges(c, attributes, s, done, key);
        }
      }
      todo := todo - {key};
      done := done + {key};
    }
    assert done == attributes.Keys;
  }

  /** Parameter by parameter: an enabled drive has its fixed name and the directory of the storage that is named, or
      of the session creator's own; every other attribute overrides the base, but for the storage's id. */
  lemma MergedMeans(c: Config, attributes: map<string, string>, s: Session, k: string)
    ensures var merged := Merged(c, attributes, s);
            var drive := "enable-drive" in attributes && attributes["enable-drive"] == "true";
            var named := "drive-path" in attributes && attributes["drive-path"] !in {"", "-"};
            && (drive && k == "enable-drive" ==> k in merged && merged[k] == "true")
            && (drive && k == "drive-name" ==> k in merged && merged[k] == "Filesystem")
            && (drive && k == "drive-path" ==>
                  k in merged && merged[k] == s.drivePath(if named then attributes["drive-path"] else s.creator))
            && (!(drive && k in {"enable-drive", "drive-name", "drive-path"}) ==>
                  if k in attributes && k != "drive-path" then k in merged && merged[k] == attributes[k]
                  else if k in c then k in merged && merged[k] == c[k]
                  else k !in merged)
  {}

  // ---------- confluence ----------

  /** Any order gives the merged configuration. */
  lemma {:induction false} SetAllMerges(c: Config, attributes: map<string, string>, s: Session, order: seq<string>)
    requires OrderFree(attributes)
    requires forall k :: k in order ==> k in attributes
    requires forall i, j :: 0 <= i < j < |order| ==> order[i] != order[j]
    ensures SetAll(c, attributes, s, order) == MergedFor(c, attributes, s, set k | k in order)
  {
    if order == [] {
      MergedForEnds(c, attributes, s);
      assert (set k | k in order) == {};
    } else {
      var before, key := order[..|order| - 1], order[|order| - 1];
      SetAllMerges(c, attributes, s, before);
      SetOneMerges(c, attributes, s, (set k | k in before), key);
      assert order == before + [key];
      assert (set k | k in order) == (set k | k in before) + {key};
    }
  }

  /** The keys in some order that ends with these two. */
  lemma OrderEnding(attributes: map<string, string>, x: string, y: string) returns (order: seq<string>)
    requires x in attributes && y in attributes && x != y
    ensures IsOrder(attributes, order)
    ensures |order| >= 2 && order[|order| - 2] == x && order[|order| - 1] == y
  {
    order := [];
    var todo := attributes.Keys - {x, y};
    while todo != {}
      invariant todo <= attributes.Keys - {x, y}
      invariant forall k :: k in order <==> k in attributes && k != x && k != y && k !in todo
      invariant forall i, j :: 0 <= i < j < |order| ==> order[i] != order[j]
      decreases |todo|
    {
      var k :| k in todo;
      order := order + [k];
      todo := todo - {k};
    }
    order := order + [x, y];
  }

  /** The result is the same in every order exactly when an enabled drive meets no attribute for its name that
      says otherwise. */
  lemma ConfluentExactly(c: Config, attributes: map<string, string>, s: Session)
    ensures OrderFree(attributes) <==>
            forall o, o' :: IsOrder(attributes, o) && IsOrder(attributes, o') ==>
              SetAll(c, attributes, s, o) == SetAll(c, attributes, s, o')
  {
    if OrderFree(attributes) {
      forall o | IsOrder(attributes, o) ensures SetAll(c, attributes, s, o) == Merged(c, attributes, s) {
        SetAllMerges(c, attributes, s, o);
        assert (set k | k in o) == attributes.Keys;
        MergedForEnds(c, attributes, s);
      }
    } else {
      var o := OrderEnding(attributes, DRIVE_NAME, ENABLE_DRIVE);
      var o' := OrderEnding(attributes, ENABLE_DRIVE, DRIVE_NAME);
      assert SetAll(c, attributes, s, o)[DRIVE_NAME] == "Filesystem";
      assert SetAll(c, attributes, s, o')[DRIVE_NAME] == attributes[DRIVE_NAME];
    }
  }

  // ---------- the placeholder ----------

  function Clean(v: string): string {
    if v == "-" then "" else v
  }

  /** The values that stand for nothing become empty, in any order. */
  method Normalise(c: Config) returns (parameters: Config)
    ensures parameters.Keys == c.Keys && forall k :: k in c ==> parameters[k] == Clean(c[k])
  {
    parameters := c;
    var todo := c.Keys;
    while todo != {}
      invariant todo <= c.Keys && parameters.Keys == c.Keys
      invariant forall k :: k in c ==> parameters[k] == if k in todo then c[k] else Clean(c[k])
      decreases |todo|
    {
      var name :| name in todo;
      if parameters[name] == "-" {
        parameters := parameters[name := ""];
      }
      todo := todo - {name};
    }
  }

  lemma MergedNothing(base: Config, s: Session)
    ensures Merged(base, map[], s) == base
  {}

  /** From the stored rows to the parameters of the session: each parameter has one value, whatever the order of
      the three loops. */
  method SessionParameters(repository: AssetRepository, base: Config, properties: map<string, string>,
                           assetId: string, s: Session) returns (r: Outcome<Config>)
    requires KnownNames(repository.rows)
    ensures r.Ok? <==> assetId in repository.protocols
    ensures r.Ok? ==>
              var attributes := Attributes(repository.rows, properties, assetId,
                                           ParameterNames(repository.protocols[assetId]));
              var merged := Merged(base, attributes, s);
              r.value.Keys == merged.Keys
              && forall k :: k in merged ==> r.value[k] == if merged[k] == "-" then "" else merged[k]
  {
    var attributes :- repository.FindAssetAttrMapByAssetId(assetId, properties);
    NoDriveNameAttribute(repository.rows, properties, assetId, repository.protocols[assetId]);
    var configuration := base;
    if |attributes| > 0 {
      configuration := SetAssetConfig(base, attributes, s);
    } else {
      MergedNothing(base, s);
      assert attributes == map[];
    }
    configuration := Normalise(configuration);
    return Ok(configuration);
  }
}
