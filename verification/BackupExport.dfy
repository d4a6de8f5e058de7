/** Making a backup: every table is listed and every secret decrypted. Exporting and importing elsewhere
    carries the reference graph and the plaintexts across. */
module BackupExport {
  import opened Wrappers
  import opened Text
  import opened Sealing
  import opened Backup
  import opened BackupGraph
  import Secrets

  /** A list of keys that names each key of a table once. */
  ghost predicate Lists<T>(keys: seq<Id>, t: map<Id, T>) {
    Unique(keys) && forall k :: k in keys <==> k in t
  }

  ghost predicate Exported(vault: Vault, key: Bytes, t: Tables, f: File) {
    && Lists(UserKeys(f.users), t.users) && Lists(GroupKeys(f.groups), t.groups)
    && Lists(StorageKeys(f.storages), t.storages) && Lists(GatewayKeys(f.gateways), t.gateways)
    && Lists(CredentialKeys(f.credentials), t.credentials) && Lists(AssetKeys(f.assets), t.assets)
    && Lists(JobKeys(f.jobs), t.jobs)
    && (forall x :: x in f.users ==> x.id in t.users && t.users[x.id] == x.username)
    && (forall x :: x in f.groups ==> x.id in t.groups && t.groups[x.id] == x.name && Unique(x.members))
    && (forall x, u :: x in f.groups ==> (u in x.members <==> (x.id, u) in t.members))
    && (forall x :: x in f.storages ==> x.id in t.storages && t.storages[x.id] == x.owner)
    && (forall x :: x in f.gateways ==> x.id in t.gateways && t.gateways[x.id] == x.address)
    && (forall x :: x in f.credentials ==>
      (x.id in t.credentials && t.credentials[x.id].owner == x.owner
       && Secrets.DecryptRow(vault, key, t.credentials[x.id].secrets) == Ok(x.secrets)))
    && (forall x :: x in f.assets ==>
      (x.id in t.assets && t.assets[x.id].owner == x.owner
       && t.assets[x.id].credentialId == x.credentialId && t.assets[x.id].accessGatewayId == x.accessGatewayId
       && Secrets.DecryptRow(vault, key, t.assets[x.id].secrets) == Ok(x.secrets)))
    && (forall x :: x in f.jobs ==> x.id in t.jobs && t.jobs[x.id] == JobRow(x.func, x.running, x.cron, x.resourceIds))
  }

  /** The rows of a table in some order. */
  method FindAll<T>(t: map<Id, T>) returns (keys: seq<Id>)
    ensures Lists(keys, t)
  {
    keys := [];
    var todo := t.Keys;
    while todo != {}
      invariant todo <= t.Keys && Unique(keys)
      invariant forall k :: k in keys <==> k in t && k !in todo
      decreases |todo|
    {
      var k :| k in todo;
      keys, todo := keys + [k], todo - {k};
    }
  }

  method FindMembers(members: set<(Id, Id)>, g: Id) returns (users: seq<Id>)
    ensures Unique(users) && forall u :: u in users <==> (g, u) in members
  {
    users := [];
    var todo := members;
    while todo != {}
      invariant todo <= members && Unique(users)
      invariant forall u :: u in users <==> (g, u) in members && (g, u) !in todo
      decreases |todo|
    {
      var m :| m in todo;
      todo := todo - {m};
      if m.0 == g {
        users := users + [m.1];
      }
    }
  }

  method Decrypted(vault: Vault, key: Bytes, row: Secrets.Row) returns (r: Outcome<Secrets.Row>)
    ensures r.Ok? <==> Secrets.DecryptRow(vault, key, row).Ok?
    ensures r.Ok? ==> r == Secrets.DecryptRow(vault, key, row)
  {
    var item := new Secrets.Item(row);
    var _ :- item.Decrypt(vault, key);
    return Ok(item.AsRow());
  }

  method ExportGroups(t: Tables) returns (groups: seq<Group>)
    ensures Lists(GroupKeys(groups), t.groups)
    ensures forall x :: x in groups ==> x.id in t.groups && t.groups[x.id] == x.name && Unique(x.members)
    ensures forall x, u :: x in groups ==> (u in x.members <==> (x.id, u) in t.members)
  {
    var keys := FindAll(t.groups);
    groups := [];
    for i := 0 to |keys|
      invariant GroupKeys(groups) == keys[..i]
      invariant forall x :: x in groups ==> x.id in t.groups && t.groups[x.id] == x.name && Unique(x.members)
      invariant forall x, u :: x in groups ==> (u in x.members <==> (x.id, u) in t.members)
    {
      var members := FindMembers(t.members, keys[i]);
      groups := groups + [Group(keys[i], t.groups[keys[i]], members)];
    }
    assert keys[..|keys|] == keys;
  }

  method ExportUsers(t: map<Id, string>) returns (users: seq<User>)
    ensures Lists(UserKeys(users), t)
    ensures forall x :: x in users ==> x.id in t && t[x.id] == x.username
  {
    var keys := FindAll(t);
    users := seq(|keys|, i requires 0 <= i < |keys| => User(keys[i], t[keys[i]]));
    assert UserKeys(users) == keys;
  }

  method ExportStorages(t: map<Id, Id>) returns (storages: seq<Storage>)
    ensures Lists(StorageKeys(storages), t)
    ensures forall x :: x in storages ==> x.id in t && t[x.id] == x.owner
  {
    var keys := FindAll(t);
    storages := seq(|keys|, i requires 0 <= i < |keys| => Storage(keys[i], t[keys[i]]));
    assert StorageKeys(storages) == keys;
  }

  method ExportGateways(t: map<Id, string>) returns (gateways: seq<Gateway>)
    ensures Lists(GatewayKeys(gateways), t)
    ensures forall x :: x in gateways ==> x.id in t && t[x.id] == x.address
  {
    var keys := FindAll(t);
    gateways := seq(|keys|, i requires 0 <= i < |keys| => Gateway(keys[i], t[keys[i]]));
    assert GatewayKeys(gateways) == keys;
  }

  method ExportJobs(t: map<Id, JobRow>) returns (jobs: seq<Job>)
    ensures Lists(JobKeys(jobs), t)
    ensures forall x :: x in jobs ==> x.id in t && t[x.id] == JobRow(x.func, x.running, x.cron, x.resourceIds)
  {
    var keys := FindAll(t);
    jobs := seq(|keys|, i requires 0 <= i < |keys| =>
      var j := t[keys[i]]; Job(keys[i], j.func, j.running, j.cron, j.resourceIds));
    assert JobKeys(jobs) == keys;
  }

  method ExportCredentials(vault: Vault, key: Bytes, t: map<Id, CredentialRow>) returns (r: Outcome<seq<Credential>>)
    ensures r.Ok? <==> forall id :: id in t ==> Secrets.DecryptRow(vault, key, t[id].secrets).Ok?
    ensures r.Ok? ==> Lists(CredentialKeys(r.value), t)
    ensures r.Ok? ==> forall x :: x in r.value ==>
      x.id in t && t[x.id].owner == x.owner && Secrets.DecryptRow(vault, key, t[x.id].secrets) == Ok(x.secrets)
  {
    var keys := FindAll(t);
    var items: seq<Credential> := [];
    for i := 0 to |keys|
      invariant CredentialKeys(items) == keys[..i]
      invariant forall x :: x in items ==>
        x.id in t && t[x.id].owner == x.owner && Secrets.DecryptRow(vault, key, t[x.id].secrets) == Ok(x.secrets)
      invariant forall j :: 0 <= j < i ==> Secrets.DecryptRow(vault, key, t[keys[j]].secrets).Ok?
    {
      var plain :- Decrypted(vault, key, t[keys[i]].secrets);
      items := items + [Credential(keys[i], t[keys[i]].owner, plain)];
    }
    assert keys[..|keys|] == keys;
    return Ok(items);
  }

  method ExportAssets(vault: Vault, key: Bytes, t: map<Id, AssetRow>) returns (r: Outcome<seq<Asset>>)
    ensures r.Ok? <==> forall id :: id in t ==> Secrets.DecryptRow(vault, key, t[id].secrets).Ok?
    ensures r.Ok? ==> Lists(AssetKeys(r.value), t)
    ensures r.Ok? ==> forall x :: x in r.value ==>
      x.id in t && t[x.id].owner == x.owner && t[x.id].credentialId == x.credentialId
      && t[x.id].accessGatewayId == x.accessGatewayId
        && Secrets.DecryptRow(vault, key, t[x.id].secrets) == Ok(x.secrets)
  {
    var keys := FindAll(t);
    var items: seq<Asset> := [];
    for i := 0 to |keys|
      invariant AssetKeys(items) == keys[..i]
      invariant forall x :: x in items ==>
        x.id in t && t[x.id].owner == x.owner && t[x.id].credentialId == x.credentialId
        && t[x.id].accessGatewayId == x.accessGatewayId
          && Secrets.DecryptRow(vault, key, t[x.id].secrets) == Ok(x.secrets)
      invariant forall j :: 0 <= j < i ==> Secrets.DecryptRow(vault, key, t[keys[j]].secrets).Ok?
    {
      var row := t[keys[i]];
      var plain :- Decrypted(vault, key, row.secrets);
      items := items + [Asset(keys[i], row.owner, row.credentialId, row.accessGatewayId, plain)];
    }
    assert keys[..|keys|] == keys;
    return Ok(items);
  }

  /** Fails exactly when some secret does not open. */
  method Export(vault: Vault, key: Bytes, t: Tables) returns (r: Outcome<File>)
    ensures r.Ok? <==>
      && (forall id :: id in t.credentials ==> Secrets.DecryptRow(vault, key, t.credentials[id].secrets).Ok?)
      && (forall id :: id in t.assets ==> Secrets.DecryptRow(vault, key, t.assets[id].secrets).Ok?)
    ensures r.Ok? ==> Exported(vault, key, t, r.value)
  {
    var users := ExportUsers(t.users);
    var groups := ExportGroups(t);
    var storages := ExportStorages(t.storages);
    var jobs := ExportJobs(t.jobs);
    var gateways := ExportGateways(t.gateways);
    var credentials :- ExportCredentials(vault, key, t.credentials);
    var assets :- ExportAssets(vault, key, t.assets);
    return Ok(File(users, groups, storages, gateways, credentials, assets, jobs));
  }

  // ---------- round trip ----------

  predicate InScope(t: Tables, e: Edge) {
    && (e.Member? ==> e.group in t.groups)
    && (e.JobAsset? ==> e.job in t.jobs && t.jobs[e.job].func != CHECK_ASSET_STATUS)
  }

  /** No user or asset has a sentinel for its id. */
  predicate NoSentinelIds(t: Tables) {
    "" !in t.users && "-" !in t.users && "" !in t.assets && "-" !in t.assets
  }

  /** The services refuse a name that is taken. */
  ghost predicate UniqueNames(t: Tables) {
    && (forall x, y :: x in t.users && y in t.users && t.users[x] == t.users[y] ==> x == y)
    && (forall x, y :: x in t.groups && y in t.groups && t.groups[x] == t.groups[y] ==> x == y)
  }

  lemma FileEdgeIsTableEdge(vault: Vault, key: Bytes, t: Tables, f: File, e: Edge)
    requires Exported(vault, key, t, f)
    ensures TableEdge(t, e) && InScope(t, e) ==> FileEdge(f, e)
    ensures FileEdge(f, e) && Refers(Target(e)) ==> TableEdge(t, e) && InScope(t, e)
  {
    if TableEdge(t, e) && InScope(t, e) {
      match e
      case Member(g, u) => assert g in GroupKeys(f.groups);
      case StorageOwner(s, u) => assert s in StorageKeys(f.storages);
      case CredentialOwner(c, u) => assert c in CredentialKeys(f.credentials);
      case AssetOwner(a, _) => assert a in AssetKeys(f.assets);
      case AssetCredential(a, _) => assert a in AssetKeys(f.assets);
      case AssetGateway(a, _) => assert a in AssetKeys(f.assets);
      case JobAsset(j, _) => assert j in JobKeys(f.jobs);
    }
  }

  /** The row that a reference leads to. */
  function Target(e: Edge): Id {
    match e
    case Member(_, u) => u
    case StorageOwner(_, u) => u
    case CredentialOwner(_, u) => u
    case AssetOwner(_, u) => u
    case AssetCredential(_, c) => c
    case AssetGateway(_, g) => g
    case JobAsset(_, a) => a
  }

  lemma ResolvingRefers(vault: Vault, key: Bytes, t: Tables, f: File, before: Tables, e: Edge)
    requires Exported(vault, key, t, f) && NoSentinelIds(t) && FileEdge(f, e) && Resolves(before, f, e)
    ensures Refers(Target(e))
  {
    if e.JobAsset? {
      assert Target(e) in AssetKeys(f.assets);
    } else if !e.AssetCredential? && !e.AssetGateway? {
      assert Target(e) in UserKeys(f.users);
    }
  }

  /** Of the references in the file, the resolving ones are the resolving ones of the database it was made
      from, less memberships of deleted groups and the resources of the status-check job. */
  lemma ExportKeepsEdges(vault: Vault, key: Bytes, t: Tables, f: File, before: Tables, e: Edge)
    requires Exported(vault, key, t, f) && NoSentinelIds(t)
    ensures FileEdge(f, e) && Resolves(before, f, e) <==> TableEdge(t, e) && InScope(t, e) && Resolves(before, f, e)
  {
    FileEdgeIsTableEdge(vault, key, t, f, e);
    if FileEdge(f, e) && Resolves(before, f, e) {
      ResolvingRefers(vault, key, t, f, before, e);
    }
  }

  // ---------- which references go across, said of the two databases ----------

  predicate UserCarried(t: Tables, before: Tables, u: Id) {
    u in t.users && t.users[u] !in before.users.Values
  }

  predicate GroupCarried(t: Tables, before: Tables, g: Id) {
    g in t.groups && t.groups[g] !in before.groups.Values
  }

  /** The row it leads to exists, and neither end is a user or a group whose name the other database has. */
  predicate Carried(t: Tables, before: Tables, e: Edge) {
    match e
    case Member(g, u) => GroupCarried(t, before, g) && UserCarried(t, before, u)
    case StorageOwner(_, u) => UserCarried(t, before, u)
    case CredentialOwner(_, u) => UserCarried(t, before, u)
    case AssetOwner(_, u) => UserCarried(t, before, u)
    case AssetCredential(_, c) => c in t.credentials
    case AssetGateway(_, g) => g in t.gateways
    case JobAsset(_, a) => a in t.assets
  }

  /** Among rows with different names the kept ones are those whose name is not taken. */
  lemma KeptByName(before: map<Id, string>, table: map<Id, string>, keys: seq<Id>, names: seq<string>, k: Id)
    requires |keys| == |names| && Lists(keys, table)
    requires forall i :: 0 <= i < |keys| ==> keys[i] in table && table[keys[i]] == names[i]
    requires forall x, y :: x in table && y in table && table[x] == table[y] ==> x == y
    ensures k in Kept(keys, NewNames(before, names), |keys|) <==> k in table && table[k] !in before.Values
  {
    if k in table {
      assert k in keys;
      var i :| 0 <= i < |keys| && keys[i] == k;
      forall j | 0 <= j < i ensures names[j] != names[i] {
        assert keys[j] != keys[i];
      }
      assert NewNames(before, names)[i] <==> table[k] !in before.Values;
    }
  }

  lemma ResolvesCarried(vault: Vault, key: Bytes, t: Tables, f: File, before: Tables, e: Edge)
    requires Exported(vault, key, t, f) && UniqueNames(t)
    ensures Resolves(before, f, e) <==> Carried(t, before, e)
  {
    ExportedNames(vault, key, t, f);
    if e.Member? {
      KeptByName(before.groups, t.groups, GroupKeys(f.groups), GroupNames(f.groups), e.group);
    }
    KeptByName(before.users, t.users, UserKeys(f.users), Usernames(f.users), Target(e));
  }

  /** Export on one server, import on another: the second server gains exactly the first one's resolving
      references, one for one under the renaming. */
  lemma RoundTripEdges(vault: Vault, key: Bytes, t: Tables, f: File, vault': Vault, key': Bytes,
                       before: Tables, after: Tables, ids: IdMaps)
    requires GoodKey(key') && Exported(vault, key, t, f) && Imported(vault', key', f, before, after, ids)
    requires NoSentinelIds(t)
    ensures forall e :: TableEdge(t, e) && InScope(t, e) && Resolves(before, f, e) ==>
      TableEdge(after, Rename(ids, e)) && !TableEdge(before, Rename(ids, e))
    ensures forall e' :: TableEdge(after, e') && !TableEdge(before, e') ==>
      exists e :: TableEdge(t, e) && InScope(t, e) && Resolves(before, f, e) && Rename(ids, e) == e'
    ensures forall e1, e2 ::
      (TableEdge(t, e1) && InScope(t, e1) && Resolves(before, f, e1)
       && TableEdge(t, e2) && InScope(t, e2) && Resolves(before, f, e2)) ==>
        (Rename(ids, e1) == Rename(ids, e2) ==> e1 == e2)
  {
    ImportEmbedsGraph(vault', key', f, before, after, ids);
    forall e ensures FileEdge(f, e) && Resolves(before, f, e)
                     <==> TableEdge(t, e) && InScope(t, e) && Resolves(before, f, e)
    {
      ExportKeepsEdges(vault, key, t, f, before, e);
    }
    forall e' | TableEdge(after, e') && !TableEdge(before, e')
      ensures exists e :: TableEdge(t, e) && InScope(t, e) && Resolves(before, f, e) && Rename(ids, e) == e'
    {
      var e :| FileEdge(f, e) && Resolves(before, f, e) && Rename(ids, e) == e';
    }
  }

  /** Said of the two databases, whatever names they share and whatever references dangle: the second server
      gains exactly the first one's carried references. */
  lemma RoundTripKeepsGraph(vault: Vault, key: Bytes, t: Tables, f: File, vault': Vault, key': Bytes,
                            before: Tables, after: Tables, ids: IdMaps)
    requires GoodKey(key') && Exported(vault, key, t, f) && Imported(vault', key', f, before, after, ids)
    requires NoSentinelIds(t) && UniqueNames(t)
    ensures forall e :: TableEdge(t, e) && InScope(t, e) && Carried(t, before, e) ==>
      TableEdge(after, Rename(ids, e)) && !TableEdge(before, Rename(ids, e))
    ensures forall e' :: TableEdge(after, e') && !TableEdge(before, e') ==>
      exists e :: TableEdge(t, e) && InScope(t, e) && Carried(t, before, e) && Rename(ids, e) == e'
    ensures forall e1, e2 ::
      (TableEdge(t, e1) && InScope(t, e1) && Carried(t, before, e1)
       && TableEdge(t, e2) && InScope(t, e2) && Carried(t, before, e2)) ==>
        (Rename(ids, e1) == Rename(ids, e2) ==> e1 == e2)
  {
    RoundTripEdges(vault, key, t, f, vault', key', before, after, ids);
    forall e ensures Resolves(before, f, e) <==> Carried(t, before, e) {
      ResolvesCarried(vault, key, t, f, before, e);
    }
    forall e' | TableEdge(after, e') && !TableEdge(before, e')
      ensures exists e :: TableEdge(t, e) && InScope(t, e) && Carried(t, before, e) && Rename(ids, e) == e'
    {
      var e :| TableEdge(t, e) && InScope(t, e) && Resolves(before, f, e) && Rename(ids, e) == e';
    }
  }

  /** Every reference leads to an existing row. */
  ghost predicate ReferentiallyClosed(t: Tables) {
    forall e :: TableEdge(t, e) && InScope(t, e) ==>
      match e
      case AssetCredential(_, c) => c in t.credentials
      case AssetGateway(_, g) => g in t.gateways
      case JobAsset(_, a) => a in t.assets
      case _ => Target(e) in t.users
  }

  /** So between servers that share no name nothing is lost but what dangles. */
  lemma NothingLost(t: Tables, before: Tables, e: Edge)
    requires ReferentiallyClosed(t) && TableEdge(t, e) && InScope(t, e)
    requires t.users.Values !! before.users.Values && t.groups.Values !! before.groups.Values
    ensures Carried(t, before, e)
  {}

  ghost predicate CredentialsKept(vault: Vault, key: Bytes, t: Tables, vault': Vault, key': Bytes, after: Tables,
                                  ids: IdMaps) {
    forall id :: id in t.credentials ==>
      && id in ids.credentials && ids.credentials[id] in after.credentials
      && Secrets.SamePlaintext(Secrets.DecryptRow(vault', key', after.credentials[ids.credentials[id]].secrets),
                               Secrets.DecryptRow(vault, key, t.credentials[id].secrets))
  }

  ghost predicate AssetsKept(vault: Vault, key: Bytes, t: Tables, vault': Vault, key': Bytes, after: Tables,
                             ids: IdMaps) {
    forall id :: id in t.assets ==>
      && id in ids.assets && ids.assets[id] in after.assets
      && Secrets.SamePlaintext(Secrets.DecryptRow(vault', key', after.assets[ids.assets[id]].secrets),
                               Secrets.DecryptRow(vault, key, t.assets[id].secrets))
  }

  lemma CredentialsCarry(vault: Vault, key: Bytes, t: Tables, f: File, vault': Vault, key': Bytes, after: Tables,
                         ids: IdMaps)
    requires Exported(vault, key, t, f) && CredentialsArrive(vault', key', f, after, ids)
    ensures CredentialsKept(vault, key, t, vault', key', after, ids)
  {}

  lemma AssetsCarry(vault: Vault, key: Bytes, t: Tables, f: File, vault': Vault, key': Bytes, after: Tables,
                    ids: IdMaps)
    requires Exported(vault, key, t, f) && AssetsArrive(vault', key', f, after, ids)
    ensures AssetsKept(vault, key, t, vault', key', after, ids)
  {}

  /** ... and every secret reads there, under that server's key, as it read here under this one's. */
  lemma RoundTripKeepsSecrets(vault: Vault, key: Bytes, t: Tables, f: File, vault': Vault, key': Bytes,
                              before: Tables, after: Tables, ids: IdMaps)
    requires GoodKey(key') && Exported(vault, key, t, f) && Imported(vault', key', f, before, after, ids)
    ensures CredentialsKept(vault, key, t, vault', key', after, ids)
    ensures AssetsKept(vault, key, t, vault', key', after, ids)
  {
    ImportedSecrets(vault', key', f, before, after, ids);
    CredentialsCarry(vault, key, t, f, vault', key', after, ids);
    AssetsCarry(vault, key, t, f, vault', key', after, ids);
  }

  // ---------- the rows themselves ----------

  /** A running job here is a running job there, with the same function and schedule. */
  ghost predicate JobRowsKept(t: Tables, after: Tables, ids: IdMaps) {
    forall id :: id in t.jobs && t.jobs[id].func != "check-asset-status-job" ==>
      && id in ids.jobs && ids.jobs[id] in after.jobs
      && var row, row' := t.jobs[id], after.jobs[ids.jobs[id]];
         && row'.func == row.func && row'.running == row.running && row'.cron == row.cron
         && FollowsList(ids.assets, row.resourceIds, row'.resourceIds)
  }

  ghost predicate GatewayRowsKept(t: Tables, after: Tables, ids: IdMaps) {
    forall id :: id in t.gateways ==>
      id in ids.gateways && ids.gateways[id] in after.gateways && after.gateways[ids.gateways[id]] == t.gateways[id]
  }

  /** A name that is free there goes across, and no other. */
  ghost predicate NamesKept(names: map<Id, string>, before: map<Id, string>, after: map<Id, string>, ids: map<Id, Id>) {
    forall id :: id in names ==>
      && (id in ids <==> names[id] !in before.Values)
      && (id in ids ==> ids[id] in after && after[ids[id]] == names[id])
  }

  lemma JobsCross(t: Tables, f: File, before: Tables, after: Tables, ids: IdMaps)
    requires Lists(JobKeys(f.jobs), t.jobs) && JobsHold(f, before, after, ids)
    requires forall x :: x in f.jobs ==>
      x.id in t.jobs && t.jobs[x.id] == JobRow(x.func, x.running, x.cron, x.resourceIds)
    ensures JobRowsKept(t, after, ids)
  {
    forall id | id in t.jobs && t.jobs[id].func != "check-asset-status-job"
      ensures exists i :: 0 <= i < |f.jobs| && f.jobs[i].id == id
    {
      assert id in JobKeys(f.jobs);
      var i :| 0 <= i < |f.jobs| && JobKeys(f.jobs)[i] == id;
      assert f.jobs[i].id == id;
    }
  }

  lemma GatewaysCross(t: Tables, f: File, before: Tables, after: Tables, ids: IdMaps)
    requires Lists(GatewayKeys(f.gateways), t.gateways) && GatewaysHold(f, before, after, ids)
    requires forall x :: x in f.gateways ==> x.id in t.gateways && t.gateways[x.id] == x.address
    ensures GatewayRowsKept(t, after, ids)
  {
    forall id | id in t.gateways ensures exists i :: 0 <= i < |f.gateways| && f.gateways[i].id == id {
      assert id in GatewayKeys(f.gateways);
      var i :| 0 <= i < |f.gateways| && GatewayKeys(f.gateways)[i] == id;
      assert f.gateways[i].id == id;
    }
  }

  lemma NamesCross(names: map<Id, string>, before: map<Id, string>, after: map<Id, string>, ids: map<Id, Id>,
                   keys: seq<Id>, list: seq<string>)
    requires |keys| == |list| && Lists(keys, names)
    requires forall i :: 0 <= i < |keys| ==> keys[i] in names && names[keys[i]] == list[i]
    requires forall x, y :: x in names && y in names && names[x] == names[y] ==> x == y
    requires Backup.Carried(before, after, ids, keys, NewNames(before, list), list)
    ensures NamesKept(names, before, after, ids)
  {
    forall id | id in names
      ensures id in ids <==> names[id] !in before.Values
      ensures id in ids ==> ids[id] in after && after[ids[id]] == names[id]
    {
      assert id in keys;
      var i :| 0 <= i < |keys| && keys[i] == id;
      NamedContents(before, after, ids, keys, list, i);
      KeptByName(before, names, keys, list, id);
    }
  }

  lemma ExportedNames(vault: Vault, key: Bytes, t: Tables, f: File)
    requires Exported(vault, key, t, f)
    ensures forall i :: 0 <= i < |f.users| ==>
      UserKeys(f.users)[i] in t.users && t.users[UserKeys(f.users)[i]] == Usernames(f.users)[i]
    ensures forall i :: 0 <= i < |f.groups| ==>
      GroupKeys(f.groups)[i] in t.groups && t.groups[GroupKeys(f.groups)[i]] == GroupNames(f.groups)[i]
  {
    forall i | 0 <= i < |f.users| ensures UserKeys(f.users)[i] in t.users
      && t.users[UserKeys(f.users)[i]] == Usernames(f.users)[i]
    {
      assert f.users[i] in f.users;
    }
    forall i | 0 <= i < |f.groups| ensures GroupKeys(f.groups)[i] in t.groups
      && t.groups[GroupKeys(f.groups)[i]] == GroupNames(f.groups)[i]
    {
      assert f.groups[i] in f.groups;
    }
  }

  /** ... and every row holds there what it held here: jobs with function, flag and schedule, gateways with their
      addresses, users and groups with their names where these are free. */
  lemma RoundTripKeepsRows(vault: Vault, key: Bytes, t: Tables, f: File, vault': Vault, key': Bytes,
                           before: Tables, after: Tables, ids: IdMaps)
    requires GoodKey(key') && Exported(vault, key, t, f) && Imported(vault', key', f, before, after, ids)
    requires UniqueNames(t)
    ensures OnlyNewRows(before, after, ids)
    ensures JobRowsKept(t, after, ids) && GatewayRowsKept(t, after, ids)
    ensures NamesKept(t.users, before.users, after.users, ids.users)
    ensures NamesKept(t.groups, before.groups, after.groups, ids.groups)
  {
    ImportedContents(vault', key', f, before, after, ids);
    JobsCross(t, f, before, after, ids);
    GatewaysCross(t, f, before, after, ids);
    ExportedNames(vault, key, t, f);
    NamesCross(t.users, before.users, after.users, ids.users, UserKeys(f.users), Usernames(f.users));
    NamesCross(t.groups, before.groups, after.groups, ids.groups, GroupKeys(f.groups), GroupNames(f.groups));
  }
}
