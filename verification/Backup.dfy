/** Importing a backup: a pass per table gives every row a fresh id, remembers which old id it replaces,
    and rewrites the references of the rows that follow. */
module Backup {
  import opened Wrappers
  import opened Text
  import opened Sealing
  import Secrets

  type Id = string

  datatype User = User(id: Id, username: string)
  datatype Group = Group(id: Id, name: string, members: seq<Id>)
  datatype Storage = Storage(id: Id, owner: Id)
  datatype Gateway = Gateway(id: Id, address: string)
  datatype Credential = Credential(id: Id, owner: Id, secrets: Secrets.Row)
  datatype Asset = Asset(id: Id, owner: Id, credentialId: Id, accessGatewayId: Id, secrets: Secrets.Row)
  datatype Job = Job(id: Id, func: string, running: bool, cron: string, resourceIds: string)

  /** The part of a backup file that carries references or secrets. Its secrets are plain text. */
  datatype File = File(users: seq<User>, groups: seq<Group>, storages: seq<Storage>, gateways: seq<Gateway>,
                       credentials: seq<Credential>, assets: seq<Asset>, jobs: seq<Job>)

  datatype CredentialRow = CredentialRow(owner: Id, secrets: Secrets.Row)
  datatype AssetRow = AssetRow(owner: Id, credentialId: Id, accessGatewayId: Id, secrets: Secrets.Row)
  datatype JobRow = JobRow(func: string, running: bool, cron: string, resourceIds: string)

  /** Each table maps a primary key to the rest of its row; a storage row is its owner, and a membership
      row's key is derived from the pair it holds. */
  datatype Tables = Tables(users: map<Id, string>, groups: map<Id, string>, members: set<(Id, Id)>,
                           storages: map<Id, Id>, gateways: map<Id, string>,
                           credentials: map<Id, CredentialRow>, assets: map<Id, AssetRow>, jobs: map<Id, JobRow>)

  const CHECK_ASSET_STATUS := "check-asset-status-job"
  const SHELL := "shell-job"

  // ---------- ids ----------

  /** The supply of fresh ids: all different, none of them a sentinel, none containing a comma. */
  type Supply = f: nat -> Id | Distinct(f) ghost witness ((k: nat) => seq(k + 2, _ => 'u'))

  ghost predicate Distinct(f: nat -> Id) {
    && (forall i, j :: f(i) == f(j) ==> i == j)
    && (forall i :: Proper(f(i)))
  }

  predicate Proper(id: Id) {
    id != "" && id != "-" && ',' !in id
  }

  /** From position `next` on, no id of the supply is in use. */
  ghost predicate Unused<T>(uuid: Supply, next: nat, t: map<Id, T>) {
    forall k :: next <= k ==> uuid(k) !in t
  }

  ghost predicate UnusedIn(uuid: Supply, next: nat, t: Tables) {
    && Unused(uuid, next, t.users) && Unused(uuid, next, t.groups) && Unused(uuid, next, t.storages)
    && Unused(uuid, next, t.gateways) && Unused(uuid, next, t.credentials) && Unused(uuid, next, t.assets)
    && Unused(uuid, next, t.jobs) && UnusedMembers(uuid, next, t.members)
  }

  ghost predicate UnusedMembers(uuid: Supply, next: nat, members: set<(Id, Id)>) {
    forall k, m :: next <= k && m in members ==> m.0 != uuid(k)
  }

  /** A Go map lookup: a missing key reads as the empty string. */
  function Get(ids: map<Id, Id>, id: Id): Id {
    if id in ids then ids[id] else ""
  }

  /** An old-to-new id map: distinct new ids, each a proper one. */
  ghost predicate Injective(ids: map<Id, Id>) {
    && (forall a, b :: a in ids && b in ids && ids[a] == ids[b] ==> a == b)
    && (forall a :: a in ids ==> Proper(ids[a]))
  }

  /** None of the new ids is one that the supply will hand out from position `next`. */
  ghost predicate Renaming(ids: map<Id, Id>, uuid: Supply, next: nat) {
    Injective(ids) && forall a, k :: a in ids && next <= k ==> ids[a] != uuid(k)
  }

  /** The table holds its old rows unchanged and one new row for each id of the map, nothing else. */
  ghost predicate Inserted<T>(before: map<Id, T>, after: map<Id, T>, ids: map<Id, Id>) {
    && (forall id :: id in before ==> id in after && after[id] == before[id])
    && (forall a :: a in ids ==> ids[a] in after && ids[a] !in before)
    && (forall id :: id in after && id !in before ==> exists a :: a in ids && ids[a] == id)
  }

  lemma RenameOne(ids: map<Id, Id>, uuid: Supply, next: nat, oldId: Id)
    requires Renaming(ids, uuid, next) && oldId !in ids
    ensures Renaming(ids[oldId := uuid(next)], uuid, next + 1)
  {}

  lemma InsertOne<T>(before: map<Id, T>, after: map<Id, T>, ids: map<Id, Id>, oldId: Id, newId: Id, row: T)
    requires Inserted(before, after, ids) && oldId !in ids && newId !in after
    ensures Inserted(before, after[newId := row], ids[oldId := newId])
    ensures forall a :: a in ids ==> ids[a] != newId
  {
    var ids' := ids[oldId := newId];
    forall id | id in after[newId := row] && id !in before ensures exists a :: a in ids' && ids'[a] == id {
      if id == newId {
        assert ids'[oldId] == id;
      } else {
        var a :| a in ids && ids[a] == id;
        assert ids'[a] == id;
      }
    }
  }

  lemma ValuesAfterInsert<T>(m: map<Id, T>, id: Id, row: T)
    requires id !in m
    ensures m[id := row].Values == m.Values + {row}
  {
    var m' := m[id := row];
    assert m'[id] == row;
    forall v | v in m.Values ensures v in m'.Values {
      var a :| a in m && m[a] == v;
      assert m'[a] == v;
    }
  }

  // ---------- one pass over the rows of a table ----------

  /** One field of every row. */
  function Column<T>(items: seq<T>, field: T -> string): (column: seq<string>)
    ensures |column| == |items| && forall i :: 0 <= i < |items| ==> column[i] == field(items[i])
  {
    seq(|items|, i requires 0 <= i < |items| => field(items[i]))
  }

  ghost predicate Unique(keys: seq<Id>) {
    forall i, j :: 0 <= i < j < |keys| ==> keys[i] != keys[j]
  }

  ghost function Kept(keys: seq<Id>, keep: seq<bool>, n: nat): set<Id>
    requires n <= |keys| == |keep|
  {
    set i | 0 <= i < n && keep[i] :: keys[i]
  }

  /** The first n rows have been handled: those to be kept, and only those, stand in the table under
      distinct fresh ids, with their rewritten contents. */
  ghost predicate Done<T>(before: map<Id, T>, after: map<Id, T>, ids: map<Id, Id>,
                          keys: seq<Id>, keep: seq<bool>, rows: seq<T>, n: nat)
    requires n <= |keys| == |keep| == |rows|
  {
    && Inserted(before, after, ids)
    && ids.Keys == Kept(keys, keep, n)
    && (forall i :: 0 <= i < n && keep[i] ==> after[ids[keys[i]]] == rows[i])
  }

  /** What each pass keeps from row to row. */
  ghost predicate Pass<T>(before: map<Id, T>, after: map<Id, T>, ids: map<Id, Id>,
                          keys: seq<Id>, keep: seq<bool>, rows: seq<T>, n: nat, uuid: Supply, next: nat)
    requires n <= |keys| == |keep| == |rows|
  {
    && Unused(uuid, next, after)
    && (Unique(keys) ==> Done(before, after, ids, keys, keep, rows, n) && Renaming(ids, uuid, next))
  }

  /** A whole list has been inserted under distinct proper ids. */
  ghost predicate Carried<T>(before: map<Id, T>, after: map<Id, T>, ids: map<Id, Id>, keys: seq<Id>, keep: seq<bool>,
                             rows: seq<T>)
    requires |keys| == |keep| == |rows|
  {
    Done(before, after, ids, keys, keep, rows, |keys|) && Injective(ids)
  }

  lemma KeptStep(keys: seq<Id>, keep: seq<bool>, n: nat)
    requires n < |keys| == |keep|
    ensures Kept(keys, keep, n + 1) == Kept(keys, keep, n) + if keep[n] then {keys[n]} else {}
    ensures Unique(keys) ==> keys[n] !in Kept(keys, keep, n)
  {}

  lemma PassSkip<T>(before: map<Id, T>, after: map<Id, T>, ids: map<Id, Id>,
                    keys: seq<Id>, keep: seq<bool>, rows: seq<T>, n: nat, uuid: Supply, next: nat)
    requires n < |keys| == |keep| == |rows| && !keep[n]
    requires Pass(before, after, ids, keys, keep, rows, n, uuid, next)
    ensures Pass(before, after, ids, keys, keep, rows, n + 1, uuid, next)
    ensures Unique(keys) ==> ids - {keys[n]} == ids
  {}

  lemma PassInsert<T>(before: map<Id, T>, after: map<Id, T>, ids: map<Id, Id>,
                      keys: seq<Id>, keep: seq<bool>, rows: seq<T>, n: nat, uuid: Supply, next: nat)
    requires n < |keys| == |keep| == |rows| && keep[n]
    requires Pass(before, after, ids, keys, keep, rows, n, uuid, next)
    ensures Pass(before, after[uuid(next) := rows[n]], ids[keys[n] := uuid(next)], keys, keep, rows, n + 1, uuid,
                 next + 1)
  {
    KeptStep(keys, keep, n);
    if Unique(keys) {
      RenameOne(ids, uuid, next, keys[n]);
      InsertOne(before, after, ids, keys[n], uuid(next), rows[n]);
    }
  }

  function All(n: nat): (keep: seq<bool>)
    ensures |keep| == n
  {
    seq(n, _ => true)
  }

  // ---------- users and groups: a taken name is skipped ----------

  ghost function Names(names: seq<string>, n: nat): set<string>
    requires n <= |names|
  {
    set j | 0 <= j < n :: names[j]
  }

  /** Which rows have a name that neither the table nor an earlier row has. */
  ghost function NewNames(before: map<Id, string>, names: seq<string>): (keep: seq<bool>)
    ensures |keep| == |names|
  {
    seq(|names|, i requires 0 <= i < |names| => names[i] !in before.Values && names[i] !in Names(names, i))
  }

  lemma NameTaken(before: map<Id, string>, after: map<Id, string>, names: seq<string>, n: nat, id: Id)
    requires n < |names| && after.Values == before.Values + Names(names, n)
    ensures names[n] in after.Values <==> !NewNames(before, names)[n]
    ensures names[n] in after.Values ==> after.Values == before.Values + Names(names, n + 1)
    ensures id !in after ==> after[id := names[n]].Values == before.Values + Names(names, n + 1)
  {
    assert Names(names, n + 1) == Names(names, n) + {names[n]};
    if id !in after {
      ValuesAfterInsert(after, id, names[n]);
    }
  }

  function UserKeys(users: seq<User>): seq<Id> {
    Column(users, (x: User) => x.id)
  }

  function Usernames(users: seq<User>): seq<string> {
    Column(users, (x: User) => x.username)
  }

  ghost predicate UsersCarried(before: map<Id, string>, after: map<Id, string>, ids: map<Id, Id>, users: seq<User>) {
    Carried(before, after, ids, UserKeys(users), NewNames(before, Usernames(users)), Usernames(users))
  }

  method ImportUsers(before: map<Id, string>, users: seq<User>, uuid: Supply, first: nat)
    returns (after: map<Id, string>, ids: map<Id, Id>, next: nat)
    requires Unused(uuid, first, before)
    ensures first <= next && Unused(uuid, next, after)
    ensures Unique(UserKeys(users)) ==> UsersCarried(before, after, ids, users)
  {
    after, ids, next := before, map[], first;
    ghost var keys, names := UserKeys(users), Usernames(users);
    ghost var keep := NewNames(before, names);
    for i := 0 to |users|
      invariant first <= next && after.Values == before.Values + Names(names, i)
      invariant Pass(before, after, ids, keys, keep, names, i, uuid, next)
    {
      var item := users[i];
      NameTaken(before, after, names, i, uuid(next));
      if item.username in after.Values {
        PassSkip(before, after, ids, keys, keep, names, i, uuid, next);
        ids := ids - {item.id};
        continue;
      }
      PassInsert(before, after, ids, keys, keep, names, i, uuid, next);
      after, ids, next := after[uuid(next) := item.username], ids[item.id := uuid(next)], next + 1;
    }
  }

  function GroupKeys(groups: seq<Group>): seq<Id> {
    Column(groups, (x: Group) => x.id)
  }

  function GroupNames(groups: seq<Group>): seq<string> {
    Column(groups, (x: Group) => x.name)
  }

  function Mapped(ids: map<Id, Id>, refs: seq<Id>): (r: seq<Id>)
    ensures |r| == |refs|
  {
    seq(|refs|, i requires 0 <= i < |refs| => Get(ids, refs[i]))
  }

  /** The membership rows written for the first n groups. */
  ghost function Memberships(groups: seq<Group>, keep: seq<bool>, ids: map<Id, Id>, userIds: map<Id, Id>, n: nat)
    : set<(Id, Id)>
    requires n <= |groups| == |keep|
  {
    set i, m | 0 <= i < n && keep[i] && m in groups[i].members :: (Get(ids, groups[i].id), Get(userIds, m))
  }

  /** Two members of one group that map to the same user id have the same primary key. */
  ghost predicate MembersFit(groups: seq<Group>, keep: seq<bool>, userIds: map<Id, Id>, n: nat)
    requires n <= |groups| == |keep|
  {
    forall i :: 0 <= i < n && keep[i] ==> Unique(Mapped(userIds, groups[i].members))
  }

  method AddMembers(before: set<(Id, Id)>, groupId: Id, members: seq<Id>) returns (r: Outcome<set<(Id, Id)>>)
    requires forall m :: m in before ==> m.0 != groupId
    ensures r.Ok? <==> Unique(members)
    ensures r.Ok? ==> r.value == before + set m | m in members :: (groupId, m)
  {
    var after := before;
    for i := 0 to |members|
      invariant Unique(members[..i])
      invariant after == before + set m | m in members[..i] :: (groupId, m)
    {
      if (groupId, members[i]) in after {
        assert members[i] in members[..i];
        return Err;
      }
      after := after + {(groupId, members[i])};
      assert members[..i + 1] == members[..i] + [members[i]];
    }
    assert members[..|members|] == members;
    return Ok(after);
  }

  lemma MembershipsStep(groups: seq<Group>, keep: seq<bool>, ids: map<Id, Id>, userIds: map<Id, Id>, n: nat, id: Id)
    requires n < |groups| == |keep| && Unique(GroupKeys(groups))
    ensures keep[n] ==>
      Memberships(groups, keep, ids[groups[n].id := id], userIds, n + 1)
      == Memberships(groups, keep, ids, userIds, n) + set m | m in Mapped(userIds, groups[n].members) :: (id, m)
    ensures !keep[n] ==> Memberships(groups, keep, ids, userIds, n + 1) == Memberships(groups, keep, ids, userIds, n)
  {
    if keep[n] {
      var ids' := ids[groups[n].id := id];
      forall i | 0 <= i < n ensures Get(ids', groups[i].id) == Get(ids, groups[i].id) {
        assert GroupKeys(groups)[i] != GroupKeys(groups)[n];
      }
      var members := Mapped(userIds, groups[n].members);
      var written := set m | m in members :: (id, m);
      forall m | m in groups[n].members ensures (id, Get(userIds, m)) in written {
        var j :| 0 <= j < |members| && groups[n].members[j] == m;
        assert members[j] in members;
      }
    }
  }

  method MapAll(ids: map<Id, Id>, refs: seq<Id>) returns (mapped: seq<Id>)
    ensures mapped == Mapped(ids, refs)
  {
    mapped := [];
    for j := 0 to |refs|
      invariant mapped == Mapped(ids, refs[..j])
    {
      mapped := mapped + [Get(ids, refs[j])];
    }
    assert refs[..|refs|] == refs;
  }

  /** No membership row belongs to one of the new groups. */
  ghost predicate FreshGroups(members: set<(Id, Id)>, groupIds: map<Id, Id>) {
    forall m, g :: m in members && g in groupIds ==> m.0 != groupIds[g]
  }

  /** What the loop over groups keeps about the membership table. */
  ghost predicate MembersPass(before: set<(Id, Id)>, after: set<(Id, Id)>, ids: map<Id, Id>, groups: seq<Group>,
                              keep: seq<bool>, userIds: map<Id, Id>, n: nat, uuid: Supply, next: nat)
    requires n <= |groups| == |keep|
  {
    && MembersFit(groups, keep, userIds, n)
    && UnusedMembers(uuid, next, after)
    && (Unique(GroupKeys(groups)) ==>
      after == before + Memberships(groups, keep, ids, userIds, n) && FreshGroups(before, ids))
  }

  lemma MembersPassStep(before: set<(Id, Id)>, after: set<(Id, Id)>, ids: map<Id, Id>, groups: seq<Group>,
                        keep: seq<bool>, userIds: map<Id, Id>, n: nat, uuid: Supply, next: nat)
    requires n < |groups| == |keep|
    requires MembersPass(before, after, ids, groups, keep, userIds, n, uuid, next)
    requires keep[n] ==> Unique(Mapped(userIds, groups[n].members))
    ensures keep[n] ==>
      MembersPass(before, after + (set m | m in Mapped(userIds, groups[n].members) :: (uuid(next), m)),
                  ids[groups[n].id := uuid(next)], groups, keep, userIds, n + 1, uuid, next + 1)
    ensures !keep[n] && Unique(GroupKeys(groups)) ==>
        Memberships(groups, keep, ids, userIds, n + 1) == Memberships(groups, keep, ids, userIds, n)
  {
    if Unique(GroupKeys(groups)) {
      MembershipsStep(groups, keep, ids, userIds, n, uuid(next));
    }
  }

  ghost predicate GroupsPass(before: map<Id, string>, after: map<Id, string>, membersBefore: set<(Id, Id)>,
                             members: set<(Id, Id)>,
                             ids: map<Id, Id>, groups: seq<Group>, userIds: map<Id, Id>, n: nat,
                             uuid: Supply, next: nat)
    requires n <= |groups|
  {
    && after.Values == before.Values + Names(GroupNames(groups), n)
    && Pass(before, after, ids, GroupKeys(groups), NewNames(before, GroupNames(groups)), GroupNames(groups), n, uuid,
            next)
    && MembersPass(membersBefore, members, ids, groups, NewNames(before, GroupNames(groups)), userIds, n, uuid, next)
  }

  lemma GroupSkipped(before: map<Id, string>, after: map<Id, string>, membersBefore: set<(Id, Id)>,
                     members: set<(Id, Id)>,
                     ids: map<Id, Id>, groups: seq<Group>, userIds: map<Id, Id>, n: nat, uuid: Supply, next: nat)
    requires n < |groups| && groups[n].name in after.Values
    requires GroupsPass(before, after, membersBefore, members, ids, groups, userIds, n, uuid, next)
    ensures GroupsPass(before, after, membersBefore, members, ids - {groups[n].id}, groups, userIds, n + 1, uuid, next)
  {
    var keep := NewNames(before, GroupNames(groups));
    NameTaken(before, after, GroupNames(groups), n, uuid(next));
    PassSkip(before, after, ids, GroupKeys(groups), keep, GroupNames(groups), n, uuid, next);
    MembersPassStep(membersBefore, members, ids, groups, keep, userIds, n, uuid, next);
  }

  lemma GroupInserted(before: map<Id, string>, after: map<Id, string>, membersBefore: set<(Id, Id)>,
                      members: set<(Id, Id)>,
                      ids: map<Id, Id>, groups: seq<Group>, userIds: map<Id, Id>, n: nat, uuid: Supply, next: nat)
    requires n < |groups| && groups[n].name !in after.Values
    requires GroupsPass(before, after, membersBefore, members, ids, groups, userIds, n, uuid, next)
    requires Unique(Mapped(userIds, groups[n].members))
    ensures GroupsPass(before, after[uuid(next) := groups[n].name], membersBefore,
                       members + (set m | m in Mapped(userIds, groups[n].members) :: (uuid(next), m)),
                       ids[groups[n].id := uuid(next)], groups, userIds, n + 1, uuid, next + 1)
  {
    var keep := NewNames(before, GroupNames(groups));
    NameTaken(before, after, GroupNames(groups), n, uuid(next));
    PassInsert(before, after, ids, GroupKeys(groups), keep, GroupNames(groups), n, uuid, next);
    MembersPassStep(membersBefore, members, ids, groups, keep, userIds, n, uuid, next);
  }

  ghost predicate GroupsCarried(before: map<Id, string>, after: map<Id, string>, membersBefore: set<(Id, Id)>,
                                members: set<(Id, Id)>, ids: map<Id, Id>, groups: seq<Group>, userIds: map<Id, Id>)
  {
    var keep := NewNames(before, GroupNames(groups));
    && Carried(before, after, ids, GroupKeys(groups), keep, GroupNames(groups))
    && members == membersBefore + Memberships(groups, keep, ids, userIds, |groups|)
    && FreshGroups(membersBefore, ids)
  }

  method ImportGroups(before: map<Id, string>, membersBefore: set<(Id, Id)>, groups: seq<Group>, userIds: map<Id, Id>,
                      uuid: Supply, first: nat)
    returns (ok: bool, after: map<Id, string>, members: set<(Id, Id)>, ids: map<Id, Id>, next: nat)
    requires Unused(uuid, first, before) && UnusedMembers(uuid, first, membersBefore)
    ensures first <= next && (ok ==> Unused(uuid, next, after) && UnusedMembers(uuid, next, members))
    ensures ok <==> MembersFit(groups, NewNames(before, GroupNames(groups)), userIds, |groups|)
    ensures ok && Unique(GroupKeys(groups)) ==>
              GroupsCarried(before, after, membersBefore, members, ids, groups, userIds)
  {
    ok, after, members, ids, next := true, before, membersBefore, map[], first;
    for i := 0 to |groups|
      invariant ok && first <= next
      invariant GroupsPass(before, after, membersBefore, members, ids, groups, userIds, i, uuid, next)
    {
      if groups[i].name in after.Values {
        GroupSkipped(before, after, membersBefore, members, ids, groups, userIds, i, uuid, next);
        ids := ids - {groups[i].id};
        continue;
      }
      var mapped := MapAll(userIds, groups[i].members);
      NameTaken(before, after, GroupNames(groups), i, uuid(next));
      var added := AddMembers(members, uuid(next), mapped);
      if !added.Ok? {
        return false, after, members, ids, next;
      }
      GroupInserted(before, after, membersBefore, members, ids, groups, userIds, i, uuid, next);
      members := added.value;
      after, ids, next := after[uuid(next) := groups[i].name], ids[groups[i].id := uuid(next)], next + 1;
    }
  }

  // ---------- the tables that follow ----------

  function StorageKeys(items: seq<Storage>): seq<Id> {
    Column(items, (x: Storage) => x.id)
  }

  function StorageRows(items: seq<Storage>, userIds: map<Id, Id>): (rows: seq<Id>)
    ensures |rows| == |items|
  {
    seq(|items|, i requires 0 <= i < |items| => Get(userIds, items[i].owner))
  }

  ghost predicate StoragesCarried(before: map<Id, Id>, after: map<Id, Id>, ids: map<Id, Id>, items: seq<Storage>,
                                  userIds: map<Id, Id>)
  {
    Carried(before, after, ids, StorageKeys(items), All(|items|), StorageRows(items, userIds))
  }

  method ImportStorages(before: map<Id, Id>, items: seq<Storage>, userIds: map<Id, Id>, uuid: Supply, first: nat)
    returns (after: map<Id, Id>, ghost ids: map<Id, Id>, next: nat)
    requires Unused(uuid, first, before)
    ensures first <= next && Unused(uuid, next, after)
    ensures Unique(StorageKeys(items)) ==> StoragesCarried(before, after, ids, items, userIds)
  {
    after, ids, next := before, map[], first;
    for i := 0 to |items|
      invariant first <= next
      invariant Pass(before, after, ids, StorageKeys(items), All(|items|), StorageRows(items, userIds), i, uuid, next)
    {
      PassInsert(before, after, ids, StorageKeys(items), All(|items|), StorageRows(items, userIds), i, uuid, next);
      ids := ids[items[i].id := uuid(next)];
      after, next := after[uuid(next) := Get(userIds, items[i].owner)], next + 1;
    }
  }

  function GatewayKeys(items: seq<Gateway>): seq<Id> {
    Column(items, (x: Gateway) => x.id)
  }

  function GatewayRows(items: seq<Gateway>): (rows: seq<string>)
    ensures |rows| == |items|
  {
    seq(|items|, i requires 0 <= i < |items| => items[i].address)
  }

  ghost predicate GatewaysCarried(before: map<Id, string>, after: map<Id, string>, ids: map<Id, Id>,
                                  items: seq<Gateway>)
  {
    Carried(before, after, ids, GatewayKeys(items), All(|items|), GatewayRows(items))
  }

  method ImportGateways(before: map<Id, string>, items: seq<Gateway>, uuid: Supply, first: nat)
    returns (after: map<Id, string>, ids: map<Id, Id>, next: nat)
    requires Unused(uuid, first, before)
    ensures first <= next && Unused(uuid, next, after)
    ensures Unique(GatewayKeys(items)) ==> GatewaysCarried(before, after, ids, items)
  {
    after, ids, next := before, map[], first;
    for i := 0 to |items|
      invariant first <= next
      invariant Pass(before, after, ids, GatewayKeys(items), All(|items|), GatewayRows(items), i, uuid, next)
    {
      PassInsert(before, after, ids, GatewayKeys(items), All(|items|), GatewayRows(items), i, uuid, next);
      after, ids, next := after[uuid(next) := items[i].address], ids[items[i].id := uuid(next)], next + 1;
    }
  }

  function Sealed(vault: Vault, kind: Secrets.Kind, key: Bytes, row: Secrets.Row): Secrets.Row
    requires GoodKey(key)
  {
    Secrets.EncryptRow(vault, kind, key, row).value
  }

  method SealItem(vault: Vault, kind: Secrets.Kind, key: Bytes, row: Secrets.Row) returns (sealed: Secrets.Row)
    requires GoodKey(key)
    ensures sealed == Sealed(vault, kind, key, row)
  {
    var item := new Secrets.Item(row);
    var r := item.Encrypt(vault, kind, key);
    Secrets.EncryptRowIsGood(vault, kind, key, row);
    return item.AsRow();
  }

  function CredentialKeys(items: seq<Credential>): seq<Id> {
    Column(items, (x: Credential) => x.id)
  }

  function CredentialRows(vault: Vault, key: Bytes, items: seq<Credential>, userIds: map<Id, Id>)
    : (rows: seq<CredentialRow>)
    requires GoodKey(key)
    ensures |rows| == |items|
  {
    seq(|items|, i requires 0 <= i < |items| =>
      CredentialRow(Get(userIds, items[i].owner), Sealed(vault, Secrets.Credential, key, items[i].secrets)))
  }

  ghost predicate CredentialsCarried(vault: Vault, key: Bytes, before: map<Id, CredentialRow>,
                                     after: map<Id, CredentialRow>, ids: map<Id, Id>, items: seq<Credential>,
                                     userIds: map<Id, Id>)
    requires GoodKey(key)
  {
    Carried(before, after, ids, CredentialKeys(items), All(|items|), CredentialRows(vault, key, items, userIds))
  }

  method ImportCredentials(vault: Vault, key: Bytes, before: map<Id, CredentialRow>, items: seq<Credential>,
                           userIds: map<Id, Id>, uuid: Supply, first: nat)
    returns (after: map<Id, CredentialRow>, ids: map<Id, Id>, next: nat)
    requires GoodKey(key) && Unused(uuid, first, before)
    ensures first <= next && Unused(uuid, next, after)
    ensures Unique(CredentialKeys(items)) ==> CredentialsCarried(vault, key, before, after, ids, items, userIds)
  {
    after, ids, next := before, map[], first;
    ghost var keys, rows := CredentialKeys(items), CredentialRows(vault, key, items, userIds);
    for i := 0 to |items|
      invariant first <= next
      invariant Pass(before, after, ids, keys, All(|items|), rows, i, uuid, next)
    {
      var sealed := SealItem(vault, Secrets.Credential, key, items[i].secrets);
      PassInsert(before, after, ids, keys, All(|items|), rows, i, uuid, next);
      after := after[uuid(next) := CredentialRow(Get(userIds, items[i].owner), sealed)];
      ids, next := ids[items[i].id := uuid(next)], next + 1;
    }
  }

  /** An optional reference: the empty string and the dash mean "none" and are left alone. */
  function Rewritten(ids: map<Id, Id>, ref: Id): Id {
    if ref != "" && ref != "-" then Get(ids, ref) else ref
  }

  function AssetKeys(items: seq<Asset>): seq<Id> {
    Column(items, (x: Asset) => x.id)
  }

  function AssetRows(vault: Vault, key: Bytes, items: seq<Asset>, userIds: map<Id, Id>, credentialIds: map<Id, Id>,
                     gatewayIds: map<Id, Id>): (rows: seq<AssetRow>)
    requires GoodKey(key)
    ensures |rows| == |items|
  {
    seq(|items|, i requires 0 <= i < |items| =>
      AssetRow(Get(userIds, items[i].owner), Rewritten(credentialIds, items[i].credentialId),
               Rewritten(gatewayIds, items[i].accessGatewayId), Sealed(vault, Secrets.Asset, key, items[i].secrets)))
  }

  ghost predicate AssetsCarried(vault: Vault, key: Bytes, before: map<Id, AssetRow>, after: map<Id, AssetRow>,
                                ids: map<Id, Id>, items: seq<Asset>, userIds: map<Id, Id>,
                                credentialIds: map<Id, Id>, gatewayIds: map<Id, Id>)
    requires GoodKey(key)
  {
    Carried(before, after, ids, AssetKeys(items), All(|items|),
            AssetRows(vault, key, items, userIds, credentialIds, gatewayIds))
  }

  method ImportAssets(vault: Vault, key: Bytes, before: map<Id, AssetRow>, items: seq<Asset>, userIds: map<Id, Id>,
                      credentialIds: map<Id, Id>, gatewayIds: map<Id, Id>, uuid: Supply, first: nat)
    returns (after: map<Id, AssetRow>, ids: map<Id, Id>, next: nat)
    requires GoodKey(key) && Unused(uuid, first, before)
    ensures first <= next && Unused(uuid, next, after)
    ensures Unique(AssetKeys(items)) ==>
              AssetsCarried(vault, key, before, after, ids, items, userIds, credentialIds, gatewayIds)
  {
    after, ids, next := before, map[], first;
    ghost var keys, rows := AssetKeys(items), AssetRows(vault, key, items, userIds, credentialIds, gatewayIds);
    for i := 0 to |items|
      invariant first <= next
      invariant Pass(before, after, ids, keys, All(|items|), rows, i, uuid, next)
    {
      var credentialId, accessGatewayId := items[i].credentialId, items[i].accessGatewayId;
      if credentialId != "" && credentialId != "-" {
        credentialId := Get(credentialIds, credentialId);
      }
      if accessGatewayId != "" && accessGatewayId != "-" {
        accessGatewayId := Get(gatewayIds, accessGatewayId);
      }
      var sealed := SealItem(vault, Secrets.Asset, key, items[i].secrets);
      PassInsert(before, after, ids, keys, All(|items|), rows, i, uuid, next);
      after := after[uuid(next) := AssetRow(Get(userIds, items[i].owner), credentialId, accessGatewayId, sealed)];
      ids, next := ids[items[i].id := uuid(next)], next + 1;
    }
  }

  function JobKeys(items: seq<Job>): seq<Id> {
    Column(items, (x: Job) => x.id)
  }

  function JobsKept(items: seq<Job>): (keep: seq<bool>)
    ensures |keep| == |items|
  {
    seq(|items|, i requires 0 <= i < |items| => items[i].func != CHECK_ASSET_STATUS)
  }

  function RewrittenJob(item: Job, assetIds: map<Id, Id>): JobRow {
    JobRow(item.func, item.running, item.cron, Join(Mapped(assetIds, Split(item.resourceIds, ',')), ","))
  }

  function JobRows(items: seq<Job>, assetIds: map<Id, Id>): (rows: seq<JobRow>)
    ensures |rows| == |items|
  {
    seq(|items|, i requires 0 <= i < |items| => RewrittenJob(items[i], assetIds))
  }

  /** A running job is handed to the scheduler, which refuses an unknown function or a bad expression. */
  predicate JobAccepted(job: Job, cronOk: string -> bool) {
    job.func == CHECK_ASSET_STATUS || !job.running || (job.func == SHELL && cronOk(job.cron))
  }

  method RewriteJob(item: Job, assetIds: map<Id, Id>) returns (row: JobRow)
    ensures row == RewrittenJob(item, assetIds)
  {
    var resourceIds := Split(item.resourceIds, ',');
    var newResourceIds := MapAll(assetIds, resourceIds);
    row := JobRow(item.func, item.running, item.cron, Join(newResourceIds, ","));
  }

  ghost predicate JobsCarried(before: map<Id, JobRow>, after: map<Id, JobRow>, ids: map<Id, Id>, items: seq<Job>,
                              assetIds: map<Id, Id>)
  {
    Carried(before, after, ids, JobKeys(items), JobsKept(items), JobRows(items, assetIds))
  }

  method ImportJobs(before: map<Id, JobRow>, items: seq<Job>, assetIds: map<Id, Id>, cronOk: string -> bool,
                    uuid: Supply, first: nat)
    returns (ok: bool, after: map<Id, JobRow>, ghost ids: map<Id, Id>, next: nat)
    requires Unused(uuid, first, before)
    ensures first <= next && (ok ==> Unused(uuid, next, after))
    ensures ok <==> forall i :: 0 <= i < |items| ==> JobAccepted(items[i], cronOk)
    ensures ok && Unique(JobKeys(items)) ==> JobsCarried(before, after, ids, items, assetIds)
  {
    ok, after, ids, next := true, before, map[], first;
    ghost var keys, keep, rows := JobKeys(items), JobsKept(items), JobRows(items, assetIds);
    for i := 0 to |items|
      invariant ok && first <= next
      invariant forall j :: 0 <= j < i ==> JobAccepted(items[j], cronOk)
      invariant Pass(before, after, ids, keys, keep, rows, i, uuid, next)
    {
      var item := items[i];
      if item.func == CHECK_ASSET_STATUS {
        PassSkip(before, after, ids, keys, keep, rows, i, uuid, next);
        continue;
      }
      var row := RewriteJob(item, assetIds);
      if item.running && (item.func != SHELL || !cronOk(item.cron)) {
        return false, after, ids, next;
      }
      assert keys[i] == item.id && keep[i] && rows[i] == row;
      PassInsert(before, after, ids, keys, keep, rows, i, uuid, next);
      ids := ids[item.id := uuid(next)];
      after, next := after[uuid(next) := row], next + 1;
    }
  }

  // ---------- the whole import ----------

  /** For each table, which new id replaced which old one. */
  datatype IdMaps = IdMaps(users: map<Id, Id>, groups: map<Id, Id>, storages: map<Id, Id>, gateways: map<Id, Id>,
                           credentials: map<Id, Id>, assets: map<Id, Id>, jobs: map<Id, Id>)

  /** Ids are primary keys where the backup was made. */
  ghost predicate UniqueKeys(file: File) {
    && Unique(UserKeys(file.users)) && Unique(GroupKeys(file.groups)) && Unique(StorageKeys(file.storages))
    && Unique(GatewayKeys(file.gateways)) && Unique(CredentialKeys(file.credentials))
    && Unique(AssetKeys(file.assets)) && Unique(JobKeys(file.jobs))
  }

  /** What a committed import has done to users, groups and storages. */
  ghost predicate PeopleImported(file: File, before: Tables, after: Tables, ids: IdMaps) {
    && UsersCarried(before.users, after.users, ids.users, file.users)
    && GroupsCarried(before.groups, after.groups, before.members, after.members, ids.groups, file.groups, ids.users)
    && StoragesCarried(before.storages, after.storages, ids.storages, file.storages, ids.users)
  }

  /** What it has done to gateways, credentials, assets and jobs. */
  ghost predicate MachinesImported(vault: Vault, key: Bytes, file: File, before: Tables, after: Tables, ids: IdMaps)
    requires GoodKey(key)
  {
    && GatewaysCarried(before.gateways, after.gateways, ids.gateways, file.gateways)
    && CredentialsCarried(vault, key, before.credentials, after.credentials, ids.credentials, file.credentials,
                          ids.users)
    && AssetsCarried(vault, key, before.assets, after.assets, ids.assets, file.assets, ids.users, ids.credentials,
                     ids.gateways)
    && JobsCarried(before.jobs, after.jobs, ids.jobs, file.jobs, ids.assets)
  }

  /** What a committed import has done to every table. */
  ghost predicate Imported(vault: Vault, key: Bytes, file: File, before: Tables, after: Tables, ids: IdMaps)
    requires GoodKey(key)
  {
    PeopleImported(file, before, after, ids) && MachinesImported(vault, key, file, before, after, ids)
  }

  method ImportPeople(before: Tables, file: File, uuid: Supply)
    returns (fit: bool, after: Tables, userIds: map<Id, Id>, ghost ids: IdMaps, next: nat)
    requires UnusedIn(uuid, 0, before)
    ensures fit <==>
            MembersFit(file.groups, NewNames(before.groups, GroupNames(file.groups)), userIds, |file.groups|)
    ensures Unique(UserKeys(file.users)) ==> UsersCarried(before.users, after.users, userIds, file.users)
    ensures fit && UniqueKeys(file) ==> PeopleImported(file, before, after, ids)
    ensures after == before.(users := after.users, groups := after.groups, members := after.members,
                             storages := after.storages)
    ensures ids.users == userIds
  {
    var users, n1;
    users, userIds, n1 := ImportUsers(before.users, file.users, uuid, 0);
    after, ids := before.(users := users), IdMaps(userIds, map[], map[], map[], map[], map[], map[]);
    var groups, members, groupIds;
    fit, groups, members, groupIds, next := ImportGroups(before.groups, before.members, file.groups, userIds, uuid, n1);
    if fit {
      var storages, storageIds, n3 := ImportStorages(before.storages, file.storages, userIds, uuid, next);
      after := after.(groups := groups, members := members, storages := storages);
      ids, next := ids.(groups := groupIds, storages := storageIds), n3;
    }
  }

  method ImportMachines(vault: Vault, key: Bytes, before: Tables, file: File, userIds: map<Id, Id>,
                        cronOk: string -> bool, uuid: Supply, first: nat)
    returns (accepted: bool, after: Tables, ghost ids: IdMaps)
    requires GoodKey(key)
    requires Unused(uuid, first, before.gateways) && Unused(uuid, first, before.credentials)
    requires Unused(uuid, first, before.assets) && Unused(uuid, first, before.jobs)
    ensures accepted <==> forall i :: 0 <= i < |file.jobs| ==> JobAccepted(file.jobs[i], cronOk)
    ensures accepted && UniqueKeys(file) ==> MachinesImported(vault, key, file, before, after, ids)
    ensures after == before.(gateways := after.gateways, credentials := after.credentials, assets := after.assets,
                             jobs := after.jobs)
    ensures ids.users == userIds
  {
    var gateways, gatewayIds, n4 := ImportGateways(before.gateways, file.gateways, uuid, first);
    var credentials, credentialIds, n5 :=
      ImportCredentials(vault, key, before.credentials, file.credentials, userIds, uuid, n4);
    var assets, assetIds, n6 :=
      ImportAssets(vault, key, before.assets, file.assets, userIds, credentialIds, gatewayIds, uuid, n5);
    var ok, jobs, jobIds, n7 := ImportJobs(before.jobs, file.jobs, assetIds, cronOk, uuid, n6);
    after := before.(gateways := gateways, credentials := credentials, assets := assets, jobs := jobs);
    accepted, ids := ok, IdMaps(userIds, map[], map[], gatewayIds, credentialIds, assetIds, jobIds);
  }

  class Database {
    var tables: Tables

    constructor (tables: Tables)
      ensures this.tables == tables
    {
      this.tables := tables;
    }

    /** One transaction. It fails, and then changes nothing, exactly when two members of an imported group
        map to the same user id or the scheduler refuses a running job. */
    method Import(vault: Vault, key: Bytes, file: File, cronOk: string -> bool, uuid: Supply)
      returns (r: Outcome<()>, ghost ids: IdMaps)
      requires GoodKey(key) && UnusedIn(uuid, 0, tables)
      modifies this
      ensures r.Ok? <==>
        && MembersFit(file.groups, NewNames(old(tables).groups, GroupNames(file.groups)), ids.users, |file.groups|)
        && forall i :: 0 <= i < |file.jobs| ==> JobAccepted(file.jobs[i], cronOk)
      ensures Unique(UserKeys(file.users)) ==>
        && Injective(ids.users)
        && ids.users.Keys == Kept(UserKeys(file.users), NewNames(old(tables).users, Usernames(file.users)),
                                  |file.users|)
      ensures !r.Ok? ==> tables == old(tables)
      ensures r.Ok? && UniqueKeys(file) ==> Imported(vault, key, file, old(tables), tables, ids)
    {
      var fit, people, userIds, peopleIds, next := ImportPeople(tables, file, uuid);
      ids := peopleIds;
      if !fit {
        return Err, ids;
      }
      var accepted, after, machineIds := ImportMachines(vault, key, people, file, userIds, cronOk, uuid, next);
      if !accepted {
        return Err, ids;
      }
      ids := machineIds.(groups := peopleIds.groups, storages := peopleIds.storages);
      tables := after;
      return Ok(()), ids;
    }
  }
}
