/** What an import preserves: the backup's reference graph, and every secret. */
module BackupGraph {
  import opened Wrappers
  import opened Text
  import opened Sealing
  import opened Backup
  import Secrets

  /** A reference from one row to another. */
  datatype Edge =
    | Member(group: Id, user: Id)
    | StorageOwner(storage: Id, user: Id)
    | CredentialOwner(credential: Id, user: Id)
    | AssetOwner(asset: Id, user: Id)
    | AssetCredential(asset: Id, credential: Id)
    | AssetGateway(asset: Id, gateway: Id)
    | JobAsset(job: Id, asset: Id)

  /** The two sentinels refer to nothing. */
  predicate Refers(ref: Id) {
    ref != "" && ref != "-"
  }

  predicate TableEdge(t: Tables, e: Edge) {
    match e
    case Member(g, u) => (g, u) in t.members && Refers(u)
    case StorageOwner(s, u) => s in t.storages && t.storages[s] == u && Refers(u)
    case CredentialOwner(c, u) => c in t.credentials && t.credentials[c].owner == u && Refers(u)
    case AssetOwner(a, u) => a in t.assets && t.assets[a].owner == u && Refers(u)
    case AssetCredential(a, c) => a in t.assets && t.assets[a].credentialId == c && Refers(c)
    case AssetGateway(a, g) => a in t.assets && t.assets[a].accessGatewayId == g && Refers(g)
    case JobAsset(j, a) => j in t.jobs && a in Split(t.jobs[j].resourceIds, ',') && Refers(a)
  }

  /** An owner, a member or a job's asset is looked up whatever it is; the other two references are
      optional. Asset status checks are not imported. */
  ghost predicate FileEdge(f: File, e: Edge) {
    match e
    case Member(g, u) => exists i :: 0 <= i < |f.groups| && f.groups[i].id == g && u in f.groups[i].members
    case StorageOwner(s, u) => exists i :: 0 <= i < |f.storages| && f.storages[i].id == s && f.storages[i].owner == u
    case CredentialOwner(c, u) =>
      exists i :: 0 <= i < |f.credentials| && f.credentials[i].id == c && f.credentials[i].owner == u
    case AssetOwner(a, u) => exists i :: 0 <= i < |f.assets| && f.assets[i].id == a && f.assets[i].owner == u
    case AssetCredential(a, c) =>
      Refers(c) && exists i :: 0 <= i < |f.assets| && f.assets[i].id == a && f.assets[i].credentialId == c
    case AssetGateway(a, g) =>
      Refers(g) && exists i :: 0 <= i < |f.assets| && f.assets[i].id == a && f.assets[i].accessGatewayId == g
    case JobAsset(j, a) =>
      exists i :: 0 <= i < |f.jobs| && f.jobs[i].func != CHECK_ASSET_STATUS && f.jobs[i].id == j
        && a in Split(f.jobs[i].resourceIds, ',')
  }

  /** Both ends of the reference were imported. */
  predicate Survives(ids: IdMaps, e: Edge) {
    match e
    case Member(g, u) => g in ids.groups && u in ids.users
    case StorageOwner(s, u) => s in ids.storages && u in ids.users
    case CredentialOwner(c, u) => c in ids.credentials && u in ids.users
    case AssetOwner(a, u) => a in ids.assets && u in ids.users
    case AssetCredential(a, c) => a in ids.assets && c in ids.credentials
    case AssetGateway(a, g) => a in ids.assets && g in ids.gateways
    case JobAsset(j, a) => j in ids.jobs && a in ids.assets
  }

  function Rename(ids: IdMaps, e: Edge): Edge {
    match e
    case Member(g, u) => Member(Get(ids.groups, g), Get(ids.users, u))
    case StorageOwner(s, u) => StorageOwner(Get(ids.storages, s), Get(ids.users, u))
    case CredentialOwner(c, u) => CredentialOwner(Get(ids.credentials, c), Get(ids.users, u))
    case AssetOwner(a, u) => AssetOwner(Get(ids.assets, a), Get(ids.users, u))
    case AssetCredential(a, c) => AssetCredential(Get(ids.assets, a), Get(ids.credentials, c))
    case AssetGateway(a, g) => AssetGateway(Get(ids.assets, a), Get(ids.gateways, g))
    case JobAsset(j, a) => JobAsset(Get(ids.jobs, j), Get(ids.assets, a))
  }

  /** Renaming keeps different surviving references different. */
  lemma RenameInjective(ids: IdMaps, e: Edge, e': Edge)
    requires Injective(ids.users) && Injective(ids.groups) && Injective(ids.storages) && Injective(ids.gateways)
    requires Injective(ids.credentials) && Injective(ids.assets) && Injective(ids.jobs)
    requires Survives(ids, e) && Survives(ids, e') && Rename(ids, e) == Rename(ids, e')
    ensures e == e'
  {}

  // ---------- from the rows of one pass to edges, in both directions ----------

  lemma RowArrives<T>(before: map<Id, T>, after: map<Id, T>, ids: map<Id, Id>,
                      keys: seq<Id>, keep: seq<bool>, rows: seq<T>, i: nat)
    requires i < |keys| == |keep| == |rows| && keep[i]
    requires Done(before, after, ids, keys, keep, rows, |keys|)
    ensures keys[i] in ids && ids[keys[i]] in after && ids[keys[i]] !in before && after[ids[keys[i]]] == rows[i]
  {}

  lemma RowOrigin<T>(before: map<Id, T>, after: map<Id, T>, ids: map<Id, Id>,
                     keys: seq<Id>, keep: seq<bool>, rows: seq<T>, id: Id)
    returns (i: nat)
    requires |keys| == |keep| == |rows| && id in after && id !in before
    requires Done(before, after, ids, keys, keep, rows, |keys|)
    ensures i < |keys| && keep[i] && keys[i] in ids && ids[keys[i]] == id && after[id] == rows[i]
  {
    var a :| a in ids && ids[a] == id;
    i :| 0 <= i < |keys| && keep[i] && keys[i] == a;
  }

  lemma StorageOwnerArrives(before: Tables, after: Tables, ids: IdMaps, f: File, s: Id, u: Id)
    requires Done(before.storages, after.storages, ids.storages, StorageKeys(f.storages), All(|f.storages|),
                  StorageRows(f.storages, ids.users), |f.storages|)
    requires Injective(ids.users) && Survives(ids, StorageOwner(s, u)) && FileEdge(f, StorageOwner(s, u))
    ensures TableEdge(after, Rename(ids, StorageOwner(s, u))) && !TableEdge(before, Rename(ids, StorageOwner(s, u)))
  {
    var i :| 0 <= i < |f.storages| && f.storages[i].id == s && f.storages[i].owner == u;
    RowArrives(before.storages, after.storages, ids.storages, StorageKeys(f.storages), All(|f.storages|),
               StorageRows(f.storages, ids.users), i);
  }

  lemma StorageOwnerOrigin(before: Tables, after: Tables, ids: IdMaps, f: File, s: Id, u: Id) returns (e: Edge)
    requires Done(before.storages, after.storages, ids.storages, StorageKeys(f.storages), All(|f.storages|),
                  StorageRows(f.storages, ids.users), |f.storages|)
    requires TableEdge(after, StorageOwner(s, u)) && !TableEdge(before, StorageOwner(s, u))
    ensures FileEdge(f, e) && Survives(ids, e) && Rename(ids, e) == StorageOwner(s, u)
  {
    var i := RowOrigin(before.storages, after.storages, ids.storages, StorageKeys(f.storages), All(|f.storages|),
                       StorageRows(f.storages, ids.users), s);
    e := StorageOwner(f.storages[i].id, f.storages[i].owner);
  }

  lemma CredentialOwnerArrives(vault: Vault, key: Bytes, before: Tables, after: Tables, ids: IdMaps, f: File, c: Id,
                               u: Id)
    requires GoodKey(key)
    requires Done(before.credentials, after.credentials, ids.credentials, CredentialKeys(f.credentials),
                  All(|f.credentials|),
                  CredentialRows(vault, key, f.credentials, ids.users), |f.credentials|)
    requires Injective(ids.users) && Survives(ids, CredentialOwner(c, u)) && FileEdge(f, CredentialOwner(c, u))
    ensures TableEdge(after, Rename(ids, CredentialOwner(c, u)))
    ensures !TableEdge(before, Rename(ids, CredentialOwner(c, u)))
  {
    var i :| 0 <= i < |f.credentials| && f.credentials[i].id == c && f.credentials[i].owner == u;
    RowArrives(before.credentials, after.credentials, ids.credentials, CredentialKeys(f.credentials),
               All(|f.credentials|),
               CredentialRows(vault, key, f.credentials, ids.users), i);
  }

  lemma CredentialOwnerOrigin(vault: Vault, key: Bytes, before: Tables, after: Tables, ids: IdMaps, f: File, c: Id,
                              u: Id)
    returns (e: Edge)
    requires GoodKey(key)
    requires Done(before.credentials, after.credentials, ids.credentials, CredentialKeys(f.credentials),
                  All(|f.credentials|),
                  CredentialRows(vault, key, f.credentials, ids.users), |f.credentials|)
    requires TableEdge(after, CredentialOwner(c, u)) && !TableEdge(before, CredentialOwner(c, u))
    ensures FileEdge(f, e) && Survives(ids, e) && Rename(ids, e) == CredentialOwner(c, u)
  {
    var i := RowOrigin(before.credentials, after.credentials, ids.credentials, CredentialKeys(f.credentials),
                       All(|f.credentials|),
                       CredentialRows(vault, key, f.credentials, ids.users), c);
    e := CredentialOwner(f.credentials[i].id, f.credentials[i].owner);
  }

  predicate FromAsset(e: Edge) {
    e.AssetOwner? || e.AssetCredential? || e.AssetGateway?
  }

  lemma AssetEdgeArrives(vault: Vault, key: Bytes, before: Tables, after: Tables, ids: IdMaps, f: File, e: Edge)
    requires GoodKey(key) && FromAsset(e)
    requires Done(before.assets, after.assets, ids.assets, AssetKeys(f.assets), All(|f.assets|),
                  AssetRows(vault, key, f.assets, ids.users, ids.credentials, ids.gateways), |f.assets|)
    requires Injective(ids.users) && Injective(ids.credentials) && Injective(ids.gateways)
    requires Survives(ids, e) && FileEdge(f, e)
    ensures TableEdge(after, Rename(ids, e)) && !TableEdge(before, Rename(ids, e))
  {
    var i :| 0 <= i < |f.assets| && f.assets[i].id == e.asset && match e
             case AssetOwner(_, u) => f.assets[i].owner == u
             case AssetCredential(_, c) => f.assets[i].credentialId == c
             case AssetGateway(_, g) => f.assets[i].accessGatewayId == g
             case _ => true;
    RowArrives(before.assets, after.assets, ids.assets, AssetKeys(f.assets), All(|f.assets|),
               AssetRows(vault, key, f.assets, ids.users, ids.credentials, ids.gateways), i);
  }

  lemma AssetRowOrigin(vault: Vault, key: Bytes, before: Tables, after: Tables, ids: IdMaps, f: File, id: Id)
    returns (x: Asset)
    requires GoodKey(key) && id in after.assets && id !in before.assets
    requires Done(before.assets, after.assets, ids.assets, AssetKeys(f.assets), All(|f.assets|),
                  AssetRows(vault, key, f.assets, ids.users, ids.credentials, ids.gateways), |f.assets|)
    ensures exists i :: 0 <= i < |f.assets| && f.assets[i] == x
    ensures x.id in ids.assets && ids.assets[x.id] == id && after.assets[id].owner == Get(ids.users, x.owner)
    ensures after.assets[id].credentialId == Rewritten(ids.credentials, x.credentialId)
    ensures after.assets[id].accessGatewayId == Rewritten(ids.gateways, x.accessGatewayId)
  {
    var i := RowOrigin(before.assets, after.assets, ids.assets, AssetKeys(f.assets), All(|f.assets|),
                       AssetRows(vault, key, f.assets, ids.users, ids.credentials, ids.gateways), id);
    x := f.assets[i];
  }

  lemma AssetEdgeOrigin(vault: Vault, key: Bytes, before: Tables, after: Tables, ids: IdMaps, f: File, e': Edge)
    returns (e: Edge)
    requires GoodKey(key) && FromAsset(e')
    requires Done(before.assets, after.assets, ids.assets, AssetKeys(f.assets), All(|f.assets|),
                  AssetRows(vault, key, f.assets, ids.users, ids.credentials, ids.gateways), |f.assets|)
    requires TableEdge(after, e') && !TableEdge(before, e')
    ensures FileEdge(f, e) && Survives(ids, e) && Rename(ids, e) == e'
  {
    var x := AssetRowOrigin(vault, key, before, after, ids, f, e'.asset);
    match e'
    case AssetOwner(_, _) => e := AssetOwner(x.id, x.owner);
    case AssetCredential(_, _) => e := AssetCredential(x.id, x.credentialId);
    case AssetGateway(_, _) => e := AssetGateway(x.id, x.accessGatewayId);
  }

  lemma JobReferences(assetIds: map<Id, Id>, resourceIds: string)
    requires Injective(assetIds)
    ensures Split(Join(Mapped(assetIds, Split(resourceIds, ',')), ","), ',')
         == Mapped(assetIds, Split(resourceIds, ','))
  {
    SplitJoin(Mapped(assetIds, Split(resourceIds, ',')), ',');
  }

  lemma JobAssetArrives(before: Tables, after: Tables, ids: IdMaps, f: File, j: Id, a: Id)
    requires Done(before.jobs, after.jobs, ids.jobs, JobKeys(f.jobs), JobsKept(f.jobs), JobRows(f.jobs, ids.assets),
                  |f.jobs|)
    requires Injective(ids.assets) && Survives(ids, JobAsset(j, a)) && FileEdge(f, JobAsset(j, a))
    ensures TableEdge(after, Rename(ids, JobAsset(j, a))) && !TableEdge(before, Rename(ids, JobAsset(j, a)))
  {
    var i :| 0 <= i < |f.jobs| && f.jobs[i].func != CHECK_ASSET_STATUS && f.jobs[i].id == j
      && a in Split(f.jobs[i].resourceIds, ',');
    RowArrives(before.jobs, after.jobs, ids.jobs, JobKeys(f.jobs), JobsKept(f.jobs), JobRows(f.jobs, ids.assets), i);
    JobReferences(ids.assets, f.jobs[i].resourceIds);
    MappedMember(ids.assets, Split(f.jobs[i].resourceIds, ','), a);
  }

  lemma MappedMember(ids: map<Id, Id>, parts: seq<Id>, a: Id)
    requires a in parts
    ensures Get(ids, a) in Mapped(ids, parts)
  {
    var k :| 0 <= k < |parts| && parts[k] == a;
    assert Mapped(ids, parts)[k] == Get(ids, a);
  }

  lemma ListedOrigin(assetIds: map<Id, Id>, resourceIds: string, a: Id) returns (part: Id)
    requires Injective(assetIds) && Refers(a)
    requires a in Split(Join(Mapped(assetIds, Split(resourceIds, ',')), ","), ',')
    ensures part in Split(resourceIds, ',') && part in assetIds && assetIds[part] == a
  {
    JobReferences(assetIds, resourceIds);
    var parts := Split(resourceIds, ',');
    var k :| 0 <= k < |parts| && Mapped(assetIds, parts)[k] == a;
    part := parts[k];
  }

  lemma JobAssetOrigin(before: Tables, after: Tables, ids: IdMaps, f: File, j: Id, a: Id) returns (e: Edge)
    requires Done(before.jobs, after.jobs, ids.jobs, JobKeys(f.jobs), JobsKept(f.jobs), JobRows(f.jobs, ids.assets),
                  |f.jobs|)
    requires Injective(ids.assets) && TableEdge(after, JobAsset(j, a)) && !TableEdge(before, JobAsset(j, a))
    ensures FileEdge(f, e) && Survives(ids, e) && Rename(ids, e) == JobAsset(j, a)
  {
    var i := RowOrigin(before.jobs, after.jobs, ids.jobs, JobKeys(f.jobs), JobsKept(f.jobs),
                       JobRows(f.jobs, ids.assets), j);
    var part := ListedOrigin(ids.assets, f.jobs[i].resourceIds, a);
    e := JobAsset(f.jobs[i].id, part);
  }

  lemma MemberArrives(before: Tables, after: Tables, ids: IdMaps, f: File, keep: seq<bool>, g: Id, u: Id)
    requires |keep| == |f.groups| && Unique(GroupKeys(f.groups))
    requires Done(before.groups, after.groups, ids.groups, GroupKeys(f.groups), keep, GroupNames(f.groups), |f.groups|)
    requires after.members == before.members + Memberships(f.groups, keep, ids.groups, ids.users, |f.groups|)
    requires FreshGroups(before.members, ids.groups)
    requires Injective(ids.users) && Survives(ids, Member(g, u)) && FileEdge(f, Member(g, u))
    ensures TableEdge(after, Rename(ids, Member(g, u))) && !TableEdge(before, Rename(ids, Member(g, u)))
  {
    var i :| 0 <= i < |f.groups| && f.groups[i].id == g && u in f.groups[i].members;
    var k :| 0 <= k < |f.groups| && keep[k] && GroupKeys(f.groups)[k] == g;
    assert GroupKeys(f.groups)[i] == g;
    assert i == k;
    assert (Get(ids.groups, g), Get(ids.users, u)) in Memberships(f.groups, keep, ids.groups, ids.users, |f.groups|);
  }

  lemma MemberOrigin(before: Tables, after: Tables, ids: IdMaps, f: File, keep: seq<bool>, g: Id, u: Id)
    returns (e: Edge)
    requires |keep| == |f.groups|
    requires Done(before.groups, after.groups, ids.groups, GroupKeys(f.groups), keep, GroupNames(f.groups), |f.groups|)
    requires after.members == before.members + Memberships(f.groups, keep, ids.groups, ids.users, |f.groups|)
    requires TableEdge(after, Member(g, u)) && !TableEdge(before, Member(g, u))
    ensures FileEdge(f, e) && Survives(ids, e) && Rename(ids, e) == Member(g, u)
  {
    var i, m :| 0 <= i < |f.groups| && keep[i] && m in f.groups[i].members
      && (Get(ids.groups, f.groups[i].id), Get(ids.users, m)) == (g, u);
    assert GroupKeys(f.groups)[i] in Kept(GroupKeys(f.groups), keep, |f.groups|);
    e := Member(f.groups[i].id, m);
  }

  // ---------- the theorem ----------

  predicate OfPeople(e: Edge) {
    e.Member? || e.StorageOwner?
  }

  lemma PeopleEdgeArrives(f: File, before: Tables, after: Tables, ids: IdMaps, e: Edge)
    requires UniqueKeys(f) && PeopleImported(f, before, after, ids) && OfPeople(e)
    requires FileEdge(f, e) && Survives(ids, e)
    ensures TableEdge(after, Rename(ids, e)) && !TableEdge(before, Rename(ids, e))
  {
    match e
    case Member(g, u) => MemberArrives(before, after, ids, f, NewNames(before.groups, GroupNames(f.groups)), g, u);
    case StorageOwner(s, u) => StorageOwnerArrives(before, after, ids, f, s, u);
  }

  lemma MachineEdgeArrives(vault: Vault, key: Bytes, f: File, before: Tables, after: Tables, ids: IdMaps, e: Edge)
    requires GoodKey(key) && UniqueKeys(f) && MachinesImported(vault, key, f, before, after, ids) && !OfPeople(e)
    requires Injective(ids.users) && FileEdge(f, e) && Survives(ids, e)
    ensures TableEdge(after, Rename(ids, e)) && !TableEdge(before, Rename(ids, e))
  {
    match e
    case CredentialOwner(c, u) => CredentialOwnerArrives(vault, key, before, after, ids, f, c, u);
    case JobAsset(j, a) => JobAssetArrives(before, after, ids, f, j, a);
    case _ => AssetEdgeArrives(vault, key, before, after, ids, f, e);
  }

  lemma EdgeArrives(vault: Vault, key: Bytes, f: File, before: Tables, after: Tables, ids: IdMaps, e: Edge)
    requires GoodKey(key) && UniqueKeys(f) && Imported(vault, key, f, before, after, ids)
    requires FileEdge(f, e) && Survives(ids, e)
    ensures TableEdge(after, Rename(ids, e)) && !TableEdge(before, Rename(ids, e))
  {
    if OfPeople(e) {
      PeopleEdgeArrives(f, before, after, ids, e);
    } else {
      MachineEdgeArrives(vault, key, f, before, after, ids, e);
    }
  }

  lemma EdgeOrigin(vault: Vault, key: Bytes, f: File, before: Tables, after: Tables, ids: IdMaps, e': Edge)
    returns (e: Edge)
    requires GoodKey(key) && UniqueKeys(f) && Imported(vault, key, f, before, after, ids)
    requires TableEdge(after, e') && !TableEdge(before, e')
    ensures FileEdge(f, e) && Survives(ids, e) && Rename(ids, e) == e'
  {
    match e'
    case Member(g, u) => e := MemberOrigin(before, after, ids, f, NewNames(before.groups, GroupNames(f.groups)), g, u);
    case StorageOwner(s, u) => e := StorageOwnerOrigin(before, after, ids, f, s, u);
    case CredentialOwner(c, u) => e := CredentialOwnerOrigin(vault, key, before, after, ids, f, c, u);
    case AssetOwner(_, _) => e := AssetEdgeOrigin(vault, key, before, after, ids, f, e');
    case AssetCredential(_, _) => e := AssetEdgeOrigin(vault, key, before, after, ids, f, e');
    case AssetGateway(_, _) => e := AssetEdgeOrigin(vault, key, before, after, ids, f, e');
    case JobAsset(j, a) => e := JobAssetOrigin(before, after, ids, f, j, a);
  }

  /** Both ends are imported, said in terms of the file and of the names already taken where it goes. */
  ghost predicate UserImported(before: Tables, f: File, u: Id) {
    u in Kept(UserKeys(f.users), NewNames(before.users, Usernames(f.users)), |f.users|)
  }

  ghost predicate GroupImported(before: Tables, f: File, g: Id) {
    g in Kept(GroupKeys(f.groups), NewNames(before.groups, GroupNames(f.groups)), |f.groups|)
  }

  ghost predicate Resolves(before: Tables, f: File, e: Edge) {
    match e
    case Member(g, u) => GroupImported(before, f, g) && UserImported(before, f, u)
    case StorageOwner(_, u) => UserImported(before, f, u)
    case CredentialOwner(_, u) => UserImported(before, f, u)
    case AssetOwner(_, u) => UserImported(before, f, u)
    case AssetCredential(_, c) => c in CredentialKeys(f.credentials)
    case AssetGateway(_, g) => g in GatewayKeys(f.gateways)
    case JobAsset(_, a) => a in AssetKeys(f.assets)
  }

  lemma AllArrive<T>(before: map<Id, T>, after: map<Id, T>, ids: map<Id, Id>, keys: seq<Id>, rows: seq<T>)
    requires |keys| == |rows| && Done(before, after, ids, keys, All(|keys|), rows, |keys|)
    ensures forall k :: k in ids <==> k in keys
  {}

  /** The row a reference starts from is imported, memberships aside. */
  lemma SourceArrives(f: File, e: Edge)
    requires FileEdge(f, e)
    ensures e.StorageOwner? ==> e.storage in StorageKeys(f.storages)
    ensures e.CredentialOwner? ==> e.credential in CredentialKeys(f.credentials)
    ensures FromAsset(e) ==> e.asset in AssetKeys(f.assets)
    ensures e.JobAsset? ==> e.job in Kept(JobKeys(f.jobs), JobsKept(f.jobs), |f.jobs|)
  {
    match e
    case Member(_, _) =>
    case StorageOwner(s, _) =>
      var i :| 0 <= i < |f.storages| && f.storages[i].id == s;
      assert StorageKeys(f.storages)[i] == s;
    case CredentialOwner(c, _) =>
      var i :| 0 <= i < |f.credentials| && f.credentials[i].id == c;
      assert CredentialKeys(f.credentials)[i] == c;
    case JobAsset(j, _) =>
      var i :| 0 <= i < |f.jobs| && f.jobs[i].func != CHECK_ASSET_STATUS && f.jobs[i].id == j;
      assert JobKeys(f.jobs)[i] == j && JobsKept(f.jobs)[i];
    case _ =>
      var i :| 0 <= i < |f.assets| && f.assets[i].id == e.asset;
      assert AssetKeys(f.assets)[i] == e.asset;
  }

  /** Which old ids the maps know. */
  ghost predicate KnownIds(before: Tables, f: File, ids: IdMaps) {
    && ids.users.Keys == Kept(UserKeys(f.users), NewNames(before.users, Usernames(f.users)), |f.users|)
    && ids.groups.Keys == Kept(GroupKeys(f.groups), NewNames(before.groups, GroupNames(f.groups)), |f.groups|)
    && (forall k :: k in ids.storages <==> k in StorageKeys(f.storages))
    && (forall k :: k in ids.gateways <==> k in GatewayKeys(f.gateways))
    && (forall k :: k in ids.credentials <==> k in CredentialKeys(f.credentials))
    && (forall k :: k in ids.assets <==> k in AssetKeys(f.assets))
    && ids.jobs.Keys == Kept(JobKeys(f.jobs), JobsKept(f.jobs), |f.jobs|)
  }

  lemma ImportedKnownIds(vault: Vault, key: Bytes, f: File, before: Tables, after: Tables, ids: IdMaps)
    requires GoodKey(key) && Imported(vault, key, f, before, after, ids)
    ensures KnownIds(before, f, ids)
  {
    AllArrive(before.storages, after.storages, ids.storages, StorageKeys(f.storages),
              StorageRows(f.storages, ids.users));
    AllArrive(before.gateways, after.gateways, ids.gateways, GatewayKeys(f.gateways), GatewayRows(f.gateways));
    AllArrive(before.credentials, after.credentials, ids.credentials, CredentialKeys(f.credentials),
              CredentialRows(vault, key, f.credentials, ids.users));
    AllArrive(before.assets, after.assets, ids.assets, AssetKeys(f.assets),
              AssetRows(vault, key, f.assets, ids.users, ids.credentials, ids.gateways));
  }

  lemma ResolvesSurvives(before: Tables, f: File, ids: IdMaps, e: Edge)
    requires KnownIds(before, f, ids) && FileEdge(f, e)
    ensures Resolves(before, f, e) <==> Survives(ids, e)
  {
    SourceArrives(f, e);
  }

  /** The import theorem, with no condition on clashes or dangling references: the references the import
      adds are exactly the file's resolving references, one for one under the renaming. */
  lemma ImportEmbedsGraph(vault: Vault, key: Bytes, f: File, before: Tables, after: Tables, ids: IdMaps)
    requires GoodKey(key) && UniqueKeys(f) && Imported(vault, key, f, before, after, ids)
    ensures forall e :: FileEdge(f, e) && Resolves(before, f, e) ==>
      TableEdge(after, Rename(ids, e)) && !TableEdge(before, Rename(ids, e))
    ensures forall e' :: TableEdge(after, e') && !TableEdge(before, e') ==>
      exists e :: FileEdge(f, e) && Resolves(before, f, e) && Rename(ids, e) == e'
    ensures forall e1, e2 ::
      (FileEdge(f, e1) && FileEdge(f, e2) && Resolves(before, f, e1) && Resolves(before, f, e2)) ==>
        (Rename(ids, e1) == Rename(ids, e2) ==> e1 == e2)
  {
    ImportedKnownIds(vault, key, f, before, after, ids);
    forall e | FileEdge(f, e) && Resolves(before, f, e)
      ensures Survives(ids, e) && TableEdge(after, Rename(ids, e)) && !TableEdge(before, Rename(ids, e))
    {
      ResolvesSurvives(before, f, ids, e);
      EdgeArrives(vault, key, f, before, after, ids, e);
    }
    forall e' | TableEdge(after, e') && !TableEdge(before, e')
      ensures exists e :: FileEdge(f, e) && Resolves(before, f, e) && Rename(ids, e) == e'
    {
      var e := EdgeOrigin(vault, key, f, before, after, ids, e');
      ResolvesSurvives(before, f, ids, e);
    }
    forall e1, e2 | FileEdge(f, e1) && FileEdge(f, e2) && Resolves(before, f, e1) && Resolves(before, f, e2)
      && Rename(ids, e1) == Rename(ids, e2)
      ensures e1 == e2
    {
      RenameInjective(ids, e1, e2);
    }
  }

  ghost predicate NoClash(before: Tables, f: File) {
    && Unique(Usernames(f.users)) && Unique(GroupNames(f.groups))
    && (forall i :: 0 <= i < |f.users| ==> Usernames(f.users)[i] !in before.users.Values)
    && (forall i :: 0 <= i < |f.groups| ==> GroupNames(f.groups)[i] !in before.groups.Values)
  }

  /** Every reference of the file leads to a row of the file. */
  ghost predicate Closed(f: File) {
    forall e :: FileEdge(f, e) ==>
      match e
      case Member(_, u) => u in UserKeys(f.users)
      case StorageOwner(_, u) => u in UserKeys(f.users)
      case CredentialOwner(_, u) => u in UserKeys(f.users)
      case AssetOwner(_, u) => u in UserKeys(f.users)
      case AssetCredential(_, c) => c in CredentialKeys(f.credentials)
      case AssetGateway(_, g) => g in GatewayKeys(f.gateways)
      case JobAsset(_, a) => a in AssetKeys(f.assets)
  }

  /** With no clash and no dangling reference nothing is lost. */
  lemma ClosedResolves(before: Tables, f: File, e: Edge)
    requires NoClash(before, f) && Closed(f) && FileEdge(f, e)
    ensures Resolves(before, f, e)
  {
    NoClashKeeps(before.users, UserKeys(f.users), Usernames(f.users));
    NoClashKeeps(before.groups, GroupKeys(f.groups), GroupNames(f.groups));
    if e.Member? {
      var i :| 0 <= i < |f.groups| && f.groups[i].id == e.group;
      assert GroupKeys(f.groups)[i] == e.group;
    }
  }

  lemma NoClashKeeps(before: map<Id, string>, keys: seq<Id>, names: seq<string>)
    requires |keys| == |names| && Unique(names)
    requires forall i :: 0 <= i < |names| ==> names[i] !in before.Values
    ensures forall k :: k in keys ==> k in Kept(keys, NewNames(before, names), |keys|)
  {}

  ghost predicate CredentialsArrive(vault: Vault, key: Bytes, f: File, after: Tables, ids: IdMaps) {
    forall i :: 0 <= i < |f.credentials| ==>
      var c := f.credentials[i];
      c.id in ids.credentials && ids.credentials[c.id] in after.credentials
      && Secrets.DecryptRow(vault, key, after.credentials[ids.credentials[c.id]].secrets)
        == Ok(c.secrets.(encrypted := true))
  }

  ghost predicate AssetsArrive(vault: Vault, key: Bytes, f: File, after: Tables, ids: IdMaps) {
    forall i :: 0 <= i < |f.assets| ==>
      var a := f.assets[i];
      a.id in ids.assets && ids.assets[a.id] in after.assets
      && Secrets.DecryptRow(vault, key, after.assets[ids.assets[a.id]].secrets) == Ok(a.secrets.(encrypted := true))
  }

  /** Every imported secret opens, under the key of the importing server, to the plaintext in the file. */
  lemma ImportedSecrets(vault: Vault, key: Bytes, f: File, before: Tables, after: Tables, ids: IdMaps)
    requires GoodKey(key) && Imported(vault, key, f, before, after, ids)
    ensures CredentialsArrive(vault, key, f, after, ids) && AssetsArrive(vault, key, f, after, ids)
  {
    forall i | 0 <= i < |f.credentials|
      ensures f.credentials[i].id in ids.credentials && ids.credentials[f.credentials[i].id] in after.credentials
      ensures Secrets.DecryptRow(vault, key, after.credentials[ids.credentials[f.credentials[i].id]].secrets)
              == Ok(f.credentials[i].secrets.(encrypted := true))
    {
      RowArrives(before.credentials, after.credentials, ids.credentials, CredentialKeys(f.credentials),
                 All(|f.credentials|),
                 CredentialRows(vault, key, f.credentials, ids.users), i);
      SealedRowOpens(vault, Secrets.Credential, key, f.credentials[i].secrets);
    }
    forall i | 0 <= i < |f.assets|
      ensures f.assets[i].id in ids.assets && ids.assets[f.assets[i].id] in after.assets
      ensures Secrets.DecryptRow(vault, key, after.assets[ids.assets[f.assets[i].id]].secrets)
              == Ok(f.assets[i].secrets.(encrypted := true))
    {
      RowArrives(before.assets, after.assets, ids.assets, AssetKeys(f.assets), All(|f.assets|),
                 AssetRows(vault, key, f.assets, ids.users, ids.credentials, ids.gateways), i);
      SealedRowOpens(vault, Secrets.Asset, key, f.assets[i].secrets);
    }
  }

  lemma SealedRowOpens(vault: Vault, kind: Secrets.Kind, key: Bytes, row: Secrets.Row)
    requires GoodKey(key)
    ensures Secrets.DecryptRow(vault, key, Sealed(vault, kind, key, row)) == Ok(row.(encrypted := true))
  {}

  // ---------- what the imported rows hold ----------

  /** The new id of a row that was imported, and otherwise nothing. */
  predicate Follows(ids: map<Id, Id>, ref: Id, written: Id) {
    written == if ref in ids then ids[ref] else ""
  }

  /** An optional reference: the empty text and the dash stay. */
  predicate FollowsOptional(ids: map<Id, Id>, ref: Id, written: Id) {
    if ref == "" || ref == "-" then written == ref else Follows(ids, ref, written)
  }

  /** The comma-separated assets of a job, one for one. */
  predicate FollowsList(ids: map<Id, Id>, refs: string, written: string) {
    var was, now := Split(refs, ','), Split(written, ',');
    |now| == |was| && forall k :: 0 <= k < |was| ==> Follows(ids, was[k], now[k])
  }

  /** The old id has a new one, and under it there is a row that was not there before. */
  predicate New<T>(before: map<Id, T>, after: map<Id, T>, ids: map<Id, Id>, id: Id) {
    id in ids && ids[id] in after && ids[id] !in before
  }

  ghost predicate JobsHold(f: File, before: Tables, after: Tables, ids: IdMaps) {
    && (forall i :: 0 <= i < |f.jobs| && f.jobs[i].func == "check-asset-status-job" ==> f.jobs[i].id !in ids.jobs)
    && forall i :: 0 <= i < |f.jobs| && f.jobs[i].func != "check-asset-status-job" ==>
      var job := f.jobs[i];
      && New(before.jobs, after.jobs, ids.jobs, job.id)
      && var row := after.jobs[ids.jobs[job.id]];
         && row.func == job.func && row.running == job.running && row.cron == job.cron
         && FollowsList(ids.assets, job.resourceIds, row.resourceIds)
  }

  ghost predicate GatewaysHold(f: File, before: Tables, after: Tables, ids: IdMaps) {
    forall i :: 0 <= i < |f.gateways| ==>
      && New(before.gateways, after.gateways, ids.gateways, f.gateways[i].id)
      && after.gateways[ids.gateways[f.gateways[i].id]] == f.gateways[i].address
  }

  /** A user is imported when the name is neither taken nor that of an earlier user of the file. */
  ghost predicate UsersHold(f: File, before: Tables, after: Tables, ids: IdMaps) {
    forall i :: 0 <= i < |f.users| ==>
      var user := f.users[i];
      && (user.id in ids.users <==>
          user.username !in before.users.Values && forall j :: 0 <= j < i ==> f.users[j].username != user.username)
      && (user.id in ids.users ==>
            New(before.users, after.users, ids.users, user.id)
            && after.users[ids.users[user.id]] == user.username)
  }

  ghost predicate GroupsHold(f: File, before: Tables, after: Tables, ids: IdMaps) {
    forall i :: 0 <= i < |f.groups| ==>
      var group := f.groups[i];
      && (group.id in ids.groups <==>
          group.name !in before.groups.Values && forall j :: 0 <= j < i ==> f.groups[j].name != group.name)
      && (group.id in ids.groups ==>
            New(before.groups, after.groups, ids.groups, group.id)
            && after.groups[ids.groups[group.id]] == group.name)
  }

  ghost predicate StoragesHold(f: File, before: Tables, after: Tables, ids: IdMaps) {
    forall i :: 0 <= i < |f.storages| ==>
      && New(before.storages, after.storages, ids.storages, f.storages[i].id)
      && Follows(ids.users, f.storages[i].owner, after.storages[ids.storages[f.storages[i].id]])
  }

  ghost predicate CredentialsHold(f: File, before: Tables, after: Tables, ids: IdMaps) {
    forall i :: 0 <= i < |f.credentials| ==>
      && New(before.credentials, after.credentials, ids.credentials, f.credentials[i].id)
      && Follows(ids.users, f.credentials[i].owner, after.credentials[ids.credentials[f.credentials[i].id]].owner)
  }

  ghost predicate AssetsHold(f: File, before: Tables, after: Tables, ids: IdMaps) {
    forall i :: 0 <= i < |f.assets| ==>
      var asset := f.assets[i];
      && New(before.assets, after.assets, ids.assets, asset.id)
      && var row := after.assets[ids.assets[asset.id]];
         && Follows(ids.users, asset.owner, row.owner)
         && FollowsOptional(ids.credentials, asset.credentialId, row.credentialId)
         && FollowsOptional(ids.gateways, asset.accessGatewayId, row.accessGatewayId)
  }

  lemma JobContents(f: File, before: Tables, after: Tables, ids: IdMaps)
    requires JobsCarried(before.jobs, after.jobs, ids.jobs, f.jobs, ids.assets)
    requires Injective(ids.assets) && Unique(JobKeys(f.jobs))
    ensures JobsHold(f, before, after, ids)
  {
    var keys, keep, rows := JobKeys(f.jobs), JobsKept(f.jobs), JobRows(f.jobs, ids.assets);
    forall i | 0 <= i < |f.jobs| && f.jobs[i].func != "check-asset-status-job"
      ensures New(before.jobs, after.jobs, ids.jobs, f.jobs[i].id)
      ensures after.jobs[ids.jobs[f.jobs[i].id]] == rows[i]
      ensures FollowsList(ids.assets, f.jobs[i].resourceIds, rows[i].resourceIds)
    {
      RowArrives(before.jobs, after.jobs, ids.jobs, keys, keep, rows, i);
      JobReferences(ids.assets, f.jobs[i].resourceIds);
    }
    forall i | 0 <= i < |f.jobs| && f.jobs[i].func == "check-asset-status-job" ensures f.jobs[i].id !in ids.jobs {
      KeptExactly(keys, keep, i);
    }
  }

  lemma KeptExactly(keys: seq<Id>, keep: seq<bool>, i: nat)
    requires i < |keys| == |keep| && Unique(keys)
    ensures keys[i] in Kept(keys, keep, |keys|) <==> keep[i]
  {}

  lemma NamedContents(before: map<Id, string>, after: map<Id, string>, ids: map<Id, Id>, keys: seq<Id>,
                      names: seq<string>, i: nat)
    requires i < |keys| == |names| && Unique(keys)
    requires Carried(before, after, ids, keys, NewNames(before, names), names)
    ensures keys[i] in ids <==> names[i] !in before.Values && forall j :: 0 <= j < i ==> names[j] != names[i]
    ensures keys[i] in ids ==> New(before, after, ids, keys[i]) && after[ids[keys[i]]] == names[i]
  {
    var keep := NewNames(before, names);
    KeptExactly(keys, keep, i);
    assert keep[i] <==> names[i] !in before.Values && names[i] !in Names(names, i);
    if keep[i] {
      RowArrives(before, after, ids, keys, keep, names, i);
    }
  }

  lemma PeopleContents(f: File, before: Tables, after: Tables, ids: IdMaps)
    requires UniqueKeys(f) && PeopleImported(f, before, after, ids)
    ensures UsersHold(f, before, after, ids) && GroupsHold(f, before, after, ids)
    ensures StoragesHold(f, before, after, ids)
  {
    var names, groups := Usernames(f.users), GroupNames(f.groups);
    forall i | 0 <= i < |f.users|
      ensures f.users[i].id in ids.users <==>
        f.users[i].username !in before.users.Values
        && forall j :: 0 <= j < i ==> f.users[j].username != f.users[i].username
      ensures f.users[i].id in ids.users ==>
        New(before.users, after.users, ids.users, f.users[i].id)
        && after.users[ids.users[f.users[i].id]] == f.users[i].username
    {
      NamedContents(before.users, after.users, ids.users, UserKeys(f.users), names, i);
      assert forall j :: 0 <= j < i ==> names[j] == f.users[j].username;
    }
    forall i | 0 <= i < |f.groups|
      ensures f.groups[i].id in ids.groups <==>
        f.groups[i].name !in before.groups.Values
        && forall j :: 0 <= j < i ==> f.groups[j].name != f.groups[i].name
      ensures f.groups[i].id in ids.groups ==>
        New(before.groups, after.groups, ids.groups, f.groups[i].id)
        && after.groups[ids.groups[f.groups[i].id]] == f.groups[i].name
    {
      NamedContents(before.groups, after.groups, ids.groups, GroupKeys(f.groups), groups, i);
      assert forall j :: 0 <= j < i ==> groups[j] == f.groups[j].name;
    }
    forall i | 0 <= i < |f.storages|
      ensures New(before.storages, after.storages, ids.storages, f.storages[i].id)
      ensures Follows(ids.users, f.storages[i].owner, after.storages[ids.storages[f.storages[i].id]])
    {
      RowArrives(before.storages, after.storages, ids.storages, StorageKeys(f.storages), All(|f.storages|),
                 StorageRows(f.storages, ids.users), i);
    }
  }

  lemma GatewayContents(f: File, before: Tables, after: Tables, ids: IdMaps)
    requires GatewaysCarried(before.gateways, after.gateways, ids.gateways, f.gateways)
    ensures GatewaysHold(f, before, after, ids)
  {
    forall i | 0 <= i < |f.gateways|
      ensures New(before.gateways, after.gateways, ids.gateways, f.gateways[i].id)
      ensures after.gateways[ids.gateways[f.gateways[i].id]] == f.gateways[i].address
    {
      RowArrives(before.gateways, after.gateways, ids.gateways, GatewayKeys(f.gateways), All(|f.gateways|),
                 GatewayRows(f.gateways), i);
    }
  }

  lemma CredentialContents(vault: Vault, key: Bytes, f: File, before: Tables, after: Tables, ids: IdMaps)
    requires GoodKey(key)
    requires CredentialsCarried(vault, key, before.credentials, after.credentials, ids.credentials, f.credentials,
                                ids.users)
    ensures CredentialsHold(f, before, after, ids)
  {
    forall i | 0 <= i < |f.credentials|
      ensures New(before.credentials, after.credentials, ids.credentials, f.credentials[i].id)
      ensures Follows(ids.users, f.credentials[i].owner,
                      after.credentials[ids.credentials[f.credentials[i].id]].owner)
    {
      RowArrives(before.credentials, after.credentials, ids.credentials, CredentialKeys(f.credentials),
                 All(|f.credentials|), CredentialRows(vault, key, f.credentials, ids.users), i);
    }
  }

  lemma AssetContents(vault: Vault, key: Bytes, f: File, before: Tables, after: Tables, ids: IdMaps)
    requires GoodKey(key)
    requires AssetsCarried(vault, key, before.assets, after.assets, ids.assets, f.assets, ids.users, ids.credentials,
                           ids.gateways)
    ensures AssetsHold(f, before, after, ids)
  {
    var rows := AssetRows(vault, key, f.assets, ids.users, ids.credentials, ids.gateways);
    forall i | 0 <= i < |f.assets|
      ensures New(before.assets, after.assets, ids.assets, f.assets[i].id)
      ensures after.assets[ids.assets[f.assets[i].id]] == rows[i]
    {
      RowArrives(before.assets, after.assets, ids.assets, AssetKeys(f.assets), All(|f.assets|), rows, i);
    }
  }

  /** Every table: the old rows are as they were, and there is one new row for each row that is imported. */
  ghost predicate OnlyNewRows(before: Tables, after: Tables, ids: IdMaps) {
    && Inserted(before.users, after.users, ids.users) && Inserted(before.groups, after.groups, ids.groups)
    && Inserted(before.storages, after.storages, ids.storages)
    && Inserted(before.gateways, after.gateways, ids.gateways)
    && Inserted(before.credentials, after.credentials, ids.credentials)
    && Inserted(before.assets, after.assets, ids.assets) && Inserted(before.jobs, after.jobs, ids.jobs)
  }

  /** What a committed import has written, field by field: names, addresses and jobs as in the file, references by
      the new ids, and empty where what they name was not imported. */
  lemma ImportedContents(vault: Vault, key: Bytes, f: File, before: Tables, after: Tables, ids: IdMaps)
    requires GoodKey(key) && UniqueKeys(f) && Imported(vault, key, f, before, after, ids)
    ensures OnlyNewRows(before, after, ids)
    ensures UsersHold(f, before, after, ids) && GroupsHold(f, before, after, ids) && StoragesHold(f, before, after, ids)
    ensures GatewaysHold(f, before, after, ids) && CredentialsHold(f, before, after, ids)
    ensures AssetsHold(f, before, after, ids) && JobsHold(f, before, after, ids)
  {
    PeopleContents(f, before, after, ids);
    GatewayContents(f, before, after, ids);
    CredentialContents(vault, key, f, before, after, ids);
    AssetContents(vault, key, f, before, after, ids);
    JobContents(f, before, after, ids);
  }

  /** When an import can fail because of memberships: exactly when some group to be imported lists a member
      twice or lists two members that were not imported. */
  lemma MembersCollide(ids: map<Id, Id>, members: seq<Id>)
    requires Injective(ids)
    ensures Unique(Mapped(ids, members)) <==>
      Unique(members) && forall i, j :: 0 <= i < j < |members| ==> members[i] in ids || members[j] in ids
  {
    forall i, j | 0 <= i < j < |members|
      ensures Mapped(ids, members)[i] == Mapped(ids, members)[j]
        <==> members[i] == members[j] || (members[i] !in ids && members[j] !in ids)
    {}
  }
}
