/** Turning an accepted directory snapshot into grants: configuration, validation, and the atomic
    revoke-and-grant pass. */
module Reconciliation {
  import opened Base
  import opened Digraphs
  import opened DirectoryMappings

  datatype Account = Account(id: string, present: bool, enabled: bool)
  datatype Membership = Membership(group: string, present: bool, ids: seq<string>)
  datatype Snapshot = Snapshot(
    source: string, revision: int, digest: nat, epoch: int, verifiedAt: int,
    accounts: seq<Account>, groups: seq<Membership>, ignored: int)

  datatype Provenance = Legacy | Manual | Directory

  /** Grants are unique per namespace, principal, provenance and source key; a directory grant's key is its group. */
  datatype Key = Key(namespace: string, principal: string, provenance: Provenance, sourceKey: string)
  datatype Grant = Grant(role: string, active: bool)

  datatype Audit = Revoked(key: Key, role: string) | Granted(key: Key, role: string)

  datatype Source = Source(revision: int, digest: nat, mapping: Mapping, lastVerified: Option<int>)

  /** `managed` names the source that manages a namespace. */
  datatype State = State(
    sources: map<string, Source>, managed: map<string, string>, grants: map<Key, Grant>, audit: multiset<Audit>,
      epoch: int)

  const MAX_MEMBERS := 100000

  // ----- complete snapshots

  ghost predicate ValidAccounts(accounts: seq<Account>, known: set<string>) {
    && (forall i :: 0 <= i < |accounts| ==> accounts[i].id in known && (accounts[i].enabled ==> accounts[i].present))
    && (forall i, j :: 0 <= i < j < |accounts| ==> accounts[i].id != accounts[j].id)
  }

  ghost predicate ValidMembership(m: Membership, accounts: set<string>, groups: set<string>) {
    m.group in groups && (!m.present ==> m.ids == []) && (forall i :: 0 <= i < |m.ids| ==> m.ids[i] in accounts)
      && Distinct(m.ids)
  }

  ghost predicate ValidGroups(groups: seq<Membership>, accounts: set<string>, known: set<string>) {
    && (forall i :: 0 <= i < |groups| ==> ValidMembership(groups[i], accounts, known))
    && (forall i, j :: 0 <= i < j < |groups| ==> groups[i].group != groups[j].group)
  }

  ghost function TotalMembers(groups: seq<Membership>): nat {
    if groups == [] then 0 else TotalMembers(groups[..|groups| - 1]) + |groups[|groups| - 1].ids|
  }

  function DirectoryIds(identities: seq<Identity>): set<string> {
    set i | 0 <= i < |identities| :: identities[i].directory
  }

  function GroupIds(bindings: seq<Binding>): set<string> {
    set i | 0 <= i < |bindings| :: bindings[i].group
  }

  /** One observation per configured account and group, and nothing else. */
  ghost predicate Complete(m: Mapping, s: Snapshot) {
    && |s.accounts| == |m.identities| && |s.groups| == |m.bindings| && 0 <= s.ignored <= MAX_MEMBERS
    && ValidAccounts(s.accounts, DirectoryIds(m.identities))
    && ValidGroups(s.groups, DirectoryIds(m.identities), GroupIds(m.bindings)) && TotalMembers(s.groups) <= MAX_MEMBERS
  }

  method CheckAccounts(accounts: seq<Account>, known: set<string>) returns (ok: bool)
    ensures ok <==> ValidAccounts(accounts, known)
  {
    var seen: set<string> := {};
    for i := 0 to |accounts|
      invariant seen == (set k | 0 <= k < i :: accounts[k].id) && ValidAccounts(accounts[..i], known)
    {
      assert accounts[..i + 1] == accounts[..i] + [accounts[i]];
      var a := accounts[i];
      if a.id !in known || a.id in seen || (!a.present && a.enabled) { return false; }
      seen := seen + {a.id};
    }
    assert accounts[..|accounts|] == accounts;
    return true;
  }

  method CheckMembership(m: Membership, accounts: set<string>, groups: set<string>) returns (ok: bool)
    ensures ok <==> ValidMembership(m, accounts, groups)
  {
    if m.group !in groups || (!m.present && |m.ids| > 0) { return false; }
    var seen: set<string> := {};
    for i := 0 to |m.ids|
      invariant seen == (set k | 0 <= k < i :: m.ids[k]) && Distinct(m.ids[..i])
      invariant forall k :: 0 <= k < i ==> m.ids[k] in accounts
    {
      assert m.ids[..i + 1] == m.ids[..i] + [m.ids[i]];
      if m.ids[i] !in accounts || m.ids[i] in seen { return false; }
      seen := seen + {m.ids[i]};
    }
    assert m.ids[..|m.ids|] == m.ids;
    return true;
  }

  method CheckGroups(list: seq<Membership>, accounts: set<string>, groups: set<string>) returns (ok: bool)
    ensures ok <==> ValidGroups(list, accounts, groups) && TotalMembers(list) <= MAX_MEMBERS
  {
    var total, seen: set<string> := 0, {};
    for i := 0 to |list|
      invariant seen == (set k | 0 <= k < i :: list[k].group) && total == TotalMembers(list[..i])
      invariant ValidGroups(list[..i], accounts, groups)
    {
      assert list[..i + 1] == list[..i] + [list[i]] && list[..i + 1][..i] == list[..i];
      ok := CheckMembership(list[i], accounts, groups);
      if !ok || list[i].group in seen { return false; }
      seen := seen + {list[i].group};
      total := total + |list[i].ids|;
    }
    assert list[..|list|] == list;
    return total <= MAX_MEMBERS;
  }

  method ValidateDirectorySnapshot(m: Mapping, s: Snapshot) returns (ok: bool)
    ensures ok <==> Complete(m, s)
  {
    if |s.accounts| != |m.identities| || |s.groups| != |m.bindings| || s.ignored < 0
      || s.ignored > MAX_MEMBERS { return false; }
    ok := CheckAccounts(s.accounts, DirectoryIds(m.identities));
    if !ok { return false; }
    ok := CheckGroups(s.groups, DirectoryIds(m.identities), GroupIds(m.bindings));
  }

  // ----- the desired grants

  /** The snapshot shows the identity's account present, enabled and in the binding's group. */
  predicate Listed(s: Snapshot, b: Binding, i: Identity) {
    && (exists g :: g in s.groups && g.group == b.group && i.directory in g.ids)
    && (exists a :: a in s.accounts && a.id == i.directory && a.present && a.enabled)
  }

  function KeyOf(b: Binding, i: Identity): Key {
    Key(b.namespace, i.principal, Directory, b.group)
  }

  /** What the snapshot entitles a principal to. */
  ghost predicate Entitled(m: Mapping, s: Snapshot, key: Key, role: string) {
    exists b, i :: b in m.bindings && i in m.identities && Listed(s, b, i) && key == KeyOf(b, i) && role == b.role
  }

  /** The desired table. */
  function Desired(m: Mapping, s: Snapshot): map<Key, string>
    requires ValidBindings(m.bindings, m.namespaces)
  {
    map b, i | b in m.bindings && i in m.identities && Listed(s, b, i) :: KeyOf(b, i) := b.role
  }

  lemma DesiredHasRole(m: Mapping, s: Snapshot, b: Binding, i: Identity)
    requires ValidBindings(m.bindings, m.namespaces) && b in m.bindings && i in m.identities && Listed(s, b, i)
    ensures KeyOf(b, i) in Desired(m, s) && Desired(m, s)[KeyOf(b, i)] == b.role
  {
  }

  lemma DesiredIsEntitled(m: Mapping, s: Snapshot, key: Key, role: string)
    requires ValidBindings(m.bindings, m.namespaces)
    ensures key in Desired(m, s) && Desired(m, s)[key] == role <==> Entitled(m, s, key, role)
  {
    if key in Desired(m, s) {
      var b, i :| b in m.bindings && i in m.identities && Listed(s, b, i) && key == KeyOf(b, i);
      DesiredHasRole(m, s, b, i);
    }
    if Entitled(m, s, key, role) {
      var b, i :| b in m.bindings && i in m.identities && Listed(s, b, i) && key == KeyOf(b, i) && role == b.role;
      DesiredHasRole(m, s, b, i);
    }
  }

  datatype Row = Row(key: Key, role: string)

  predicate Holds(table: map<Key, string>, row: Row) {
    row.key in table && table[row.key] == row.role
  }

  ghost predicate IndexesAccounts(index: map<string, Account>, accounts: seq<Account>) {
    (forall a :: a in accounts <==> a.id in index && index[a.id] == a) && forall id :: id in index ==>
      index[id].id == id
  }

  ghost predicate IndexesBindings(index: map<string, Binding>, bindings: seq<Binding>) {
    (forall b :: b in bindings <==> b.group in index && index[b.group] == b) && forall id :: id in index ==>
      index[id].group == id
  }

  ghost predicate IndexesIdentities(index: map<string, Identity>, identities: seq<Identity>) {
    (forall x :: x in identities <==> x.directory in index && index[x.directory] == x) && forall id :: id in index ==>
      index[id].directory == id
  }

  ghost predicate UniqueKeys(rows: seq<Row>) {
    forall i, j :: 0 <= i < j < |rows| ==> rows[i].key != rows[j].key
  }

  method IndexAccounts(accounts: seq<Account>) returns (index: map<string, Account>)
    requires forall i, j :: 0 <= i < j < |accounts| ==> accounts[i].id != accounts[j].id
    ensures IndexesAccounts(index, accounts)
  {
    index := map[];
    for k := 0 to |accounts|
      invariant forall i :: 0 <= i < k ==> accounts[i].id in index && index[accounts[i].id] == accounts[i]
      invariant forall id :: id in index ==> index[id] in accounts[..k] && index[id].id == id
    {
      index := index[accounts[k].id := accounts[k]];
    }
  }

  method IndexBindings(bindings: seq<Binding>) returns (index: map<string, Binding>)
    requires forall i, j :: 0 <= i < j < |bindings| ==> bindings[i].group != bindings[j].group
    ensures IndexesBindings(index, bindings)
  {
    index := map[];
    for k := 0 to |bindings|
      invariant forall i :: 0 <= i < k ==> bindings[i].group in index && index[bindings[i].group] == bindings[i]
      invariant forall id :: id in index ==> index[id] in bindings[..k] && index[id].group == id
    {
      index := index[bindings[k].group := bindings[k]];
    }
  }

  method IndexIdentities(identities: seq<Identity>) returns (index: map<string, Identity>)
    requires forall i, j :: 0 <= i < j < |identities| ==> identities[i].directory != identities[j].directory
    ensures IndexesIdentities(index, identities)
  {
    index := map[];
    for k := 0 to |identities|
      invariant forall i :: 0 <= i < k ==>
        identities[i].directory in index && index[identities[i].directory] == identities[i]
      invariant forall id :: id in index ==> index[id] in identities[..k] && index[id].directory == id
    {
      index := index[identities[k].directory := identities[k]];
    }
  }

  /** The row is that of an eligible member of the group. */
  ghost predicate FromGroup(row: Row, b: Binding, ids: seq<string>, accounts: map<string, Account>,
      identities: map<string, Identity>) {
    exists id :: id in ids && id in accounts && id in identities && accounts[id].present && accounts[id].enabled
      && row == Row(KeyOf(b, identities[id]), b.role)
  }

  ghost predicate OnePrincipalEach(identities: map<string, Identity>) {
    forall x, y :: x in identities && y in identities && identities[x].principal == identities[y].principal ==> x == y
  }

  method GroupRows(b: Binding, ids: seq<string>, accounts: map<string, Account>, identities: map<string, Identity>)
    returns (rows: seq<Row>)
    requires Distinct(ids) && OnePrincipalEach(identities)
    requires forall id :: id in ids ==> id in accounts && id in identities
    ensures UniqueKeys(rows) && (forall r :: r in rows ==> r.key.sourceKey == b.group)
    ensures forall row :: row in rows <==> FromGroup(row, b, ids, accounts, identities)
  {
    rows := [];
    for k := 0 to |ids|
      invariant UniqueKeys(rows) && (forall r :: r in rows ==> r.key.sourceKey == b.group)
      invariant forall row :: row in rows <==> FromGroup(row, b, ids[..k], accounts, identities)
    {
      assert ids[..k + 1] == ids[..k] + [ids[k]];
      var account := accounts[ids[k]];
      if !account.present || !account.enabled { continue; }
      var row := Row(KeyOf(b, identities[ids[k]]), b.role);
      forall i | 0 <= i < |rows|
        ensures rows[i].key != row.key
      {
        assert FromGroup(rows[i], b, ids[..k], accounts, identities);
      }
      rows := rows + [row];
    }
    assert ids[..|ids|] == ids;
  }

  ghost predicate FromGroups(row: Row, groups: seq<Membership>, bindings: map<string, Binding>,
      accounts: map<string, Account>, identities: map<string, Identity>) {
    exists g :: g in groups && g.group in bindings && FromGroup(row, bindings[g.group], g.ids, accounts, identities)
  }

  lemma FromGroupsAlso(groups: seq<Membership>, g: Membership, bindings: map<string, Binding>,
      accounts: map<string, Account>, identities: map<string, Identity>, row: Row)
    ensures FromGroups(row, groups + [g], bindings, accounts, identities) <==>
      FromGroups(row, groups, bindings, accounts, identities)
        || (g.group in bindings && FromGroup(row, bindings[g.group], g.ids, accounts, identities))
  {
    assert forall x :: x in groups + [g] <==> x in groups || x == g;
  }

  method AllRows(groups: seq<Membership>, bindings: map<string, Binding>, accounts: map<string, Account>,
      identities: map<string, Identity>) returns (rows: seq<Row>)
    requires OnePrincipalEach(identities) && (forall id :: id in bindings ==> bindings[id].group == id)
    requires forall i :: 0 <= i < |groups| ==> groups[i].group in bindings && Distinct(groups[i].ids)
    requires forall i, id :: 0 <= i < |groups| && id in groups[i].ids ==> id in accounts && id in identities
    requires forall i, j :: 0 <= i < j < |groups| ==> groups[i].group != groups[j].group
    ensures UniqueKeys(rows)
    ensures forall row :: row in rows <==> FromGroups(row, groups, bindings, accounts, identities)
  {
    rows := [];
    for k := 0 to |groups|
      invariant UniqueKeys(rows)
      invariant (forall r :: r in rows ==> exists i :: 0 <= i < k && r.key.sourceKey == groups[i].group)
      invariant forall row :: row in rows <==> FromGroups(row, groups[..k], bindings, accounts, identities)
    {
      var g := groups[k];
      assert groups[..k + 1] == groups[..k] + [g];
      var more := GroupRows(bindings[g.group], g.ids, accounts, identities);
      forall row ensures row in rows + more <==> FromGroups(row, groups[..k + 1], bindings, accounts, identities) {
        FromGroupsAlso(groups[..k], g, bindings, accounts, identities, row);
      }
      AppendUnique(rows, more);
      rows := rows + more;
    }
    assert groups[..|groups|] == groups;
  }

  lemma AppendUnique(a: seq<Row>, b: seq<Row>)
    requires UniqueKeys(a) && UniqueKeys(b) && forall x, y :: x in a && y in b ==> x.key.sourceKey != y.key.sourceKey
    ensures UniqueKeys(a + b)
  {
  }

  /** The primary key of the desired table turns a repeated key into a failure. */
  method CopyRows(rows: seq<Row>) returns (ok: bool, table: map<Key, string>)
    ensures ok <==> UniqueKeys(rows)
    ensures ok ==> forall row :: Holds(table, row) <==> row in rows
  {
    table := map[];
    for k := 0 to |rows|
      invariant UniqueKeys(rows[..k])
      invariant forall i :: 0 <= i < k ==> rows[i].key in table && table[rows[i].key] == rows[i].role
      invariant forall key :: key in table ==> Row(key, table[key]) in rows[..k]
    {
      if rows[k].key in table {
        var i :| 0 <= i < k && rows[i] == Row(rows[k].key, table[rows[k].key]);
        return false, table;
      }
      table := table[rows[k].key := rows[k].role];
    }
    assert rows[..|rows|] == rows;
    forall row ensures Holds(table, row) <==> row in rows {
      if Holds(table, row) { assert Row(row.key, table[row.key]) in rows[..|rows|]; }
    }
    return true, table;
  }

  lemma RowsAreEntitled(m: Mapping, s: Snapshot, bindings: map<string, Binding>, accounts: map<string, Account>,
      identities: map<string, Identity>, row: Row)
    requires IndexesBindings(bindings, m.bindings) && IndexesAccounts(accounts, s.accounts)
    requires IndexesIdentities(identities, m.identities)
    ensures FromGroups(row, s.groups, bindings, accounts, identities) <==> Entitled(m, s, row.key, row.role)
  {
    if FromGroups(row, s.groups, bindings, accounts, identities) {
      var g :| g in s.groups && g.group in bindings && FromGroup(row, bindings[g.group], g.ids, accounts, identities);
      var id :| id in g.ids && id in accounts && id in identities && accounts[id].present && accounts[id].enabled
        && row == Row(KeyOf(bindings[g.group], identities[id]), bindings[g.group].role);
      assert accounts[id] in s.accounts && Listed(s, bindings[g.group], identities[id]);
    }
    if Entitled(m, s, row.key, row.role) {
      var b, i :|
        b in m.bindings && i in m.identities && Listed(s, b, i) && row.key == KeyOf(b, i) && row.role == b.role;
      var g :| g in s.groups && g.group == b.group && i.directory in g.ids;
      assert FromGroup(row, bindings[g.group], g.ids, accounts, identities);
    }
  }

  lemma TableIsDesired(m: Mapping, s: Snapshot, table: map<Key, string>, bindings: map<string, Binding>,
      accounts: map<string, Account>, identities: map<string, Identity>)
    requires ValidBindings(m.bindings, m.namespaces)
    requires IndexesBindings(bindings, m.bindings) && IndexesAccounts(accounts, s.accounts)
    requires IndexesIdentities(identities, m.identities)
    requires forall row :: Holds(table, row) <==> FromGroups(row, s.groups, bindings, accounts, identities)
    ensures table == Desired(m, s)
  {
    forall row ensures Holds(table, row) <==> Holds(Desired(m, s), row) {
      RowsAreEntitled(m, s, bindings, accounts, identities, row);
      DesiredIsEntitled(m, s, row.key, row.role);
    }
    SameTable(table, Desired(m, s));
  }

  lemma SameTable(a: map<Key, string>, b: map<Key, string>)
    requires forall row :: Holds(a, row) <==> Holds(b, row)
    ensures a == b
  {
    forall key ensures key in a <==> key in b {
      if key in a { assert Holds(a, Row(key, a[key])); }
      if key in b { assert Holds(b, Row(key, b[key])); }
    }
    forall key | key in a ensures a[key] == b[key] { assert Holds(a, Row(key, a[key])); }
  }

  lemma PrincipalsDiffer(identities: seq<Identity>, a: Identity, b: Identity)
    requires ValidIdentities(identities) && a in identities && b in identities && a.principal == b.principal
    ensures a == b
  {
    var i :| 0 <= i < |identities| && identities[i] == a;
    var j :| 0 <= j < |identities| && identities[j] == b;
    var lower, upper := if i < j then i else j, if i < j then j else i;
    assert lower == upper || Apart(identities[lower], identities[upper]);
  }

  lemma MappingIsOneToOne(identities: seq<Identity>, index: map<string, Identity>)
    requires ValidIdentities(identities) && IndexesIdentities(index, identities)
    ensures OnePrincipalEach(index)
  {
    forall x, y | x in index && y in index && index[x].principal == index[y].principal ensures x == y {
      PrincipalsDiffer(identities, index[x], index[y]);
    }
  }

  /** The rows never collide, and the table they fill is the desired one. */
  method BuildDesired(m: Mapping, s: Snapshot) returns (ok: bool, table: map<Key, string>)
    requires ValidMapping(m) && Complete(m, s)
    ensures ok && table == Desired(m, s)
  {
    forall i, j | 0 <= i < j < |m.identities| ensures m.identities[i].directory != m.identities[j].directory {
      assert Apart(m.identities[i], m.identities[j]);
    }
    var accounts := IndexAccounts(s.accounts);
    var bindings := IndexBindings(m.bindings);
    var identities := IndexIdentities(m.identities);
    MappingIsOneToOne(m.identities, identities);
    GroupsAreCovered(m, s, bindings, accounts, identities);
    var rows := AllRows(s.groups, bindings, accounts, identities);
    ok, table := CopyRows(rows);
    TableIsDesired(m, s, table, bindings, accounts, identities);
  }

  lemma GroupsAreCovered(m: Mapping, s: Snapshot, bindings: map<string, Binding>, accounts: map<string, Account>,
      identities: map<string, Identity>)
    requires Complete(m, s)
    requires IndexesBindings(bindings, m.bindings) && IndexesAccounts(accounts, s.accounts)
    requires IndexesIdentities(identities, m.identities)
    ensures forall i :: 0 <= i < |s.groups| ==> s.groups[i].group in bindings && Distinct(s.groups[i].ids)
    ensures forall i, id :: 0 <= i < |s.groups| && id in s.groups[i].ids ==> id in accounts && id in identities
  {
    AllCovered(m, s);
    forall i | 0 <= i < |s.groups| ensures s.groups[i].group in bindings && Distinct(s.groups[i].ids) {
      assert ValidMembership(s.groups[i], DirectoryIds(m.identities), GroupIds(m.bindings));
      var k :| 0 <= k < |m.bindings| && m.bindings[k].group == s.groups[i].group;
      assert m.bindings[k] in m.bindings;
    }
    forall i, id | 0 <= i < |s.groups| && id in s.groups[i].ids ensures id in accounts && id in identities {
      assert s.groups[i] in s.groups;
    }
  }

  /** A complete snapshot observes every configured account: as many distinct ones as there are. */
  lemma AllCovered(m: Mapping, s: Snapshot)
    requires Complete(m, s)
    ensures forall g, id :: g in s.groups && id in g.ids ==>
      (exists a :: a in s.accounts && a.id == id) && exists i :: i in m.identities && i.directory == id
  {
    var observed, known := set k | 0 <= k < |s.accounts| :: s.accounts[k].id, DirectoryIds(m.identities);
    CountIds(s.accounts);
    CountDirectories(m.identities);
    if !(known <= observed) {
      var x :| x in known && x !in observed;
      SubsetSize(observed + {x}, known);
    }
    forall g, id | g in s.groups && id in g.ids
      ensures (exists a :: a in s.accounts && a.id == id) && exists i :: i in m.identities && i.directory == id
    {
      var k :| 0 <= k < |s.groups| && s.groups[k] == g;
      assert ValidMembership(s.groups[k], known, GroupIds(m.bindings));
      assert id in known && id in observed;
      var a :| 0 <= a < |s.accounts| && s.accounts[a].id == id;
      var i :| 0 <= i < |m.identities| && m.identities[i].directory == id;
      assert s.accounts[a] in s.accounts && m.identities[i] in m.identities;
    }
  }

  lemma {:induction false} CountIds(accounts: seq<Account>)
    requires forall i, j :: 0 <= i < j < |accounts| ==> accounts[i].id != accounts[j].id
    ensures |set k | 0 <= k < |accounts| :: accounts[k].id| == |accounts|
  {
    if accounts != [] {
      var rest, last := accounts[..|accounts| - 1], accounts[|accounts| - 1];
      CountIds(rest);
      assert (set k | 0 <= k < |accounts| :: accounts[k].id) == (set k | 0 <= k < |rest| :: rest[k].id) + {last.id};
    }
  }

  lemma {:induction false} CountDirectories(identities: seq<Identity>)
    ensures |DirectoryIds(identities)| <= |identities|
  {
    if identities != [] {
      var rest, last := identities[..|identities| - 1], identities[|identities| - 1];
      CountDirectories(rest);
      assert DirectoryIds(identities) == DirectoryIds(rest) + {last.directory};
    }
  }

  // ----- the transactions

  const SECOND := 1000000000

  function RevisionOf(st: State, source: string): int {
    if source in st.sources then st.sources[source].revision else 0
  }

  /** Installs a mapping, unless it is invalid, stale, takes over another source's namespace, or manages a
      new namespace without approval. `clash` is what the plan finds wrong in tables not modelled here. */
  ghost function Configure(st: State, m: Mapping, digest: nat, clash: bool): (State, bool) {
    if !ValidMapping(m) || clash || (exists n :: n in m.namespaces && n in st.managed && st.managed[n] != m.source)
      then (st, false)
    else if RevisionOf(st, m.source) > m.revision then (st, false)
    else if RevisionOf(st, m.source) == m.revision
      then (st, m.source in st.sources && st.sources[m.source].digest == digest)
    else if exists n :: n in m.namespaces && n !in st.managed && n !in m.approved then (st, false)
    else (st.(sources := st.sources[m.source := Source(m.revision, digest, m, None)],
              managed := st.managed + map n | n in m.namespaces :: m.source), true)
  }

  /** The snapshot is for the stored configuration and recovery epoch, fresh, newer than the last, and complete. */
  ghost predicate Accepts(st: State, s: Snapshot, now: int) {
    && s.source in st.sources
    && var source := st.sources[s.source];
       && source.revision == s.revision && source.digest == s.digest && st.epoch == s.epoch
       && now - 30 * SECOND < s.verifiedAt <= now + 5 * SECOND
       && (source.lastVerified.Some? ==> source.lastVerified.value < s.verifiedAt)
       && Complete(source.mapping, s)
  }

  predicate ManagedBy(managed: map<string, string>, source: string, key: Key) {
    key.provenance == Directory && key.namespace in managed && managed[key.namespace] == source
  }

  /** An active directory grant of the source that the snapshot no longer backs with its role. */
  predicate Outdated(grants: map<Key, Grant>, managed: map<string, string>, source: string, desired: map<Key, string>,
      key: Key) {
    key in grants && grants[key].active && ManagedBy(managed, source, key)
      && !(key in desired && desired[key] == grants[key].role)
  }

  /** A desired grant that is missing, revoked or has another role. */
  predicate Lacking(grants: map<Key, Grant>, desired: map<Key, string>, key: Key) {
    key in desired && !(key in grants && grants[key] == Grant(desired[key], true))
  }

  /** What the snapshot makes of the grants. */
  function Reconciled(grants: map<Key, Grant>, managed: map<string, string>, source: string,
      desired: map<Key, string>): map<Key, Grant> {
    map key | key in grants.Keys + desired.Keys ::
      if key in desired then Grant(desired[key], true)
      else if ManagedBy(managed, source, key) then grants[key].(active := false)
      else grants[key]
  }

  function RevokedRows(grants: map<Key, Grant>, managed: map<string, string>, source: string,
      desired: map<Key, string>): set<Audit> {
    set key | key in grants && Outdated(grants, managed, source, desired, key) :: Revoked(key, grants[key].role)
  }

  function GrantedRows(grants: map<Key, Grant>, desired: map<Key, string>): set<Audit> {
    set key | key in desired && Lacking(grants, desired, key) :: Granted(key, desired[key])
  }

  /** One audit row per revocation and one per grant made or restored. */
  function Changes(grants: map<Key, Grant>, managed: map<string, string>, source: string,
      desired: map<Key, string>): set<Audit> {
    RevokedRows(grants, managed, source, desired) + GrantedRows(grants, desired)
  }

  ghost function Apply(st: State, s: Snapshot, now: int): (State, bool)
    requires StateOk(st)
  {
    if !Accepts(st, s, now) then (st, false) else
      var source := st.sources[s.source];
      var desired := Desired(source.mapping, s);
      (st.(grants := Reconciled(st.grants, st.managed, s.source, desired),
           audit := st.audit + multiset(Changes(st.grants, st.managed, s.source, desired)),
           sources := st.sources[s.source := source.(lastVerified := Some(s.verifiedAt))]), true)
  }

  /** Stored mappings are valid, of their own source, and their namespaces are managed by it. */
  ghost predicate StateOk(st: State) {
    forall source :: source in st.sources ==> SourceOk(st, source)
  }

  ghost predicate SourceOk(st: State, source: string)
    requires source in st.sources
  {
    var m := st.sources[source].mapping;
    ValidMapping(m) && m.source == source && forall n :: n in m.namespaces ==>
      n in st.managed && st.managed[n] == source
  }

  lemma ConfigureKeeps(st: State, m: Mapping, digest: nat, clash: bool)
    requires StateOk(st)
    ensures StateOk(Configure(st, m, digest, clash).0)
  {
    var after := Configure(st, m, digest, clash).0;
    if after != st {
      forall source | source in after.sources ensures SourceOk(after, source) {
        if source != m.source { assert SourceOk(st, source); }
      }
    }
  }

  lemma ApplyKeeps(st: State, s: Snapshot, now: int)
    requires StateOk(st)
    ensures StateOk(Apply(st, s, now).0)
  {
    var after := Apply(st, s, now).0;
    forall source | source in after.sources ensures SourceOk(after, source) { assert SourceOk(st, source); }
  }

  // ----- what an accepted snapshot does

  lemma DesiredIsManaged(st: State, s: Snapshot, key: Key)
    requires StateOk(st) && s.source in st.sources && key in Desired(st.sources[s.source].mapping, s)
    ensures ManagedBy(st.managed, s.source, key)
  {
    assert SourceOk(st, s.source);
    var m := st.sources[s.source].mapping;
    var b, i :| b in m.bindings && i in m.identities && Listed(s, b, i) && key == KeyOf(b, i);
  }

  ghost predicate ActiveWith(grants: map<Key, Grant>, key: Key, role: string) {
    key in grants && grants[key] == Grant(role, true)
  }

  ghost predicate Owns(managed: map<string, string>, source: string, desired: map<Key, string>) {
    forall key :: key in desired ==> ManagedBy(managed, source, key)
  }

  lemma DesiredIsOwned(st: State, s: Snapshot)
    requires StateOk(st) && s.source in st.sources
    requires ValidBindings(st.sources[s.source].mapping.bindings, st.sources[s.source].mapping.namespaces)
    ensures Owns(st.managed, s.source, Desired(st.sources[s.source].mapping, s))
  {
    forall key | key in Desired(st.sources[s.source].mapping, s)
      ensures ManagedBy(st.managed, s.source, key)
    {
      DesiredIsManaged(st, s, key);
    }
  }

  /** Afterwards the source's active directory grants are exactly what the snapshot entitles to; every other
      grant is as before. */
  lemma AppliedExactly(st: State, s: Snapshot, now: int, key: Key, role: string)
    requires StateOk(st) && Accepts(st, s, now)
    ensures var after := Apply(st, s, now).0;
      && (ManagedBy(st.managed, s.source, key) ==>
           (ActiveWith(after.grants, key, role) <==> Entitled(st.sources[s.source].mapping, s, key, role)))
      && (!ManagedBy(st.managed, s.source, key) ==>
           (key in after.grants <==> key in st.grants) && (key in st.grants ==> after.grants[key] == st.grants[key]))
  {
    assert SourceOk(st, s.source);
    DesiredIsOwned(st, s);
    DesiredIsEntitled(st.sources[s.source].mapping, s, key, role);
    ReconciledAt(st.grants, st.managed, s.source, Desired(st.sources[s.source].mapping, s), key, role);
  }

  lemma ReconciledAt(grants: map<Key, Grant>, managed: map<string, string>, source: string, desired: map<Key, string>,
      key: Key, role: string)
    requires Owns(managed, source, desired)
    ensures var after := Reconciled(grants, managed, source, desired);
      && (ManagedBy(managed, source, key) ==>
           (ActiveWith(after, key, role) <==> key in desired && desired[key] == role))
      && (!ManagedBy(managed, source, key) ==>
           (key in after <==> key in grants) && (key in grants ==> after[key] == grants[key]))
  {
  }

  lemma ChangesAre(grants: map<Key, Grant>, managed: map<string, string>, source: string, desired: map<Key, string>,
      key: Key, role: string)
    requires Owns(managed, source, desired)
    ensures var after := Reconciled(grants, managed, source, desired);
      var changes := Changes(grants, managed, source, desired);
      && (Revoked(key, role) in changes <==>
           ManagedBy(managed, source, key) && ActiveWith(grants, key, role) && !ActiveWith(after, key, role))
      && (Granted(key, role) in changes <==> ActiveWith(after, key, role) && !ActiveWith(grants, key, role))
  {
  }

  lemma OnlyAdded(before: multiset<Audit>, changes: set<Audit>)
    ensures var added := (before + multiset(changes)) - before;
      (forall row :: row in added <==> row in changes) && forall row :: added[row] <= 1
  {
    assert (before + multiset(changes)) - before == multiset(changes);
  }

  /** The audit gains a row exactly for each grant that the pass revoked, made or restored. */
  lemma AuditIsExact(st: State, s: Snapshot, now: int, key: Key, role: string)
    requires StateOk(st) && Accepts(st, s, now)
    ensures var after := Apply(st, s, now).0; var added := after.audit - st.audit;
      && (Revoked(key, role) in added <==>
           ManagedBy(st.managed, s.source, key) && ActiveWith(st.grants, key, role)
             && !ActiveWith(after.grants, key, role))
      && (Granted(key, role) in added <==> ActiveWith(after.grants, key, role) && !ActiveWith(st.grants, key, role))
      && (forall row :: added[row] <= 1)
  {
    assert SourceOk(st, s.source);
    var desired := Desired(st.sources[s.source].mapping, s);
    DesiredIsOwned(st, s);
    ChangesAre(st.grants, st.managed, s.source, desired, key, role);
    OnlyAdded(st.audit, Changes(st.grants, st.managed, s.source, desired));
  }

  lemma SettledGrants(grants: map<Key, Grant>, managed: map<string, string>, source: string, desired: map<Key, string>)
    requires Owns(managed, source, desired)
    ensures var once := Reconciled(grants, managed, source, desired);
      Reconciled(once, managed, source, desired) == once && Changes(once, managed, source, desired) == {}
  {
  }

  lemma SameObservations(m: Mapping, s: Snapshot, t: Snapshot)
    requires ValidBindings(m.bindings, m.namespaces) && t.accounts == s.accounts && t.groups == s.groups
    ensures Desired(m, t) == Desired(m, s)
  {
    forall b, i ensures Listed(t, b, i) <==> Listed(s, b, i) {}
  }

  /** A later snapshot with the same observations changes no grant and writes no audit row. */
  lemma ReapplyIsQuiet(st: State, s: Snapshot, now: int, t: Snapshot, later: int)
    requires StateOk(st) && Accepts(st, s, now)
    requires t.source == s.source && t.accounts == s.accounts && t.groups == s.groups
    ensures StateOk(Apply(st, s, now).0)
    ensures var once := Apply(st, s, now).0; var twice := Apply(once, t, later).0;
      twice.grants == once.grants && twice.audit == once.audit
  {
    ApplyKeeps(st, s, now);
    assert SourceOk(st, s.source);
    var m := st.sources[s.source].mapping;
    SameObservations(m, s, t);
    DesiredIsOwned(st, s);
    SettledGrants(st.grants, st.managed, s.source, Desired(m, s));
  }
}
