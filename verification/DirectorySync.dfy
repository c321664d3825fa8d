/** Reading the directory and applying what was read, end to end. */
module DirectorySync {
  import opened DirectoryMappings
  import opened Reconciliation
  import Read = DirectorySnapshots

  /** The accounts and groups that a mapping has read, in its order. */
  function AccountIds(m: Mapping): (ids: seq<string>)
    ensures |ids| == |m.identities| && forall i :: 0 <= i < |ids| ==> ids[i] == m.identities[i].directory
  {
    seq(|m.identities|, i requires 0 <= i < |m.identities| => m.identities[i].directory)
  }

  function BoundGroups(m: Mapping): (ids: seq<string>)
    ensures |ids| == |m.bindings| && forall i :: 0 <= i < |ids| ==> ids[i] == m.bindings[i].group
  {
    seq(|m.bindings|, i requires 0 <= i < |m.bindings| => m.bindings[i].group)
  }

  /** The store receives what was read; a group's set of accounts arrives as a list. */
  ghost predicate Carries(s: Snapshot, read: Read.Snapshot) {
    && |s.accounts| == |read.accounts| && |s.groups| == |read.groups|
    && (forall i :: 0 <= i < |s.accounts| ==>
         s.accounts[i] == Account(read.accounts[i].id, read.accounts[i].present, read.accounts[i].enabled))
    && (forall i :: 0 <= i < |s.groups| ==>
         s.groups[i].group == read.groups[i].group && s.groups[i].present == read.groups[i].present)
    && (forall i, id :: 0 <= i < |s.groups| ==> (id in s.groups[i].ids <==> id in read.groups[i].ids))
  }

  /** The directory had the account, enabled, at its first pass, and search k met the group listing it. */
  ghost predicate EnabledMember(line: Read.Timeline, keys: Read.Keys, group: string, id: string, pass: nat, k: nat) {
    && Read.Has(line.At(pass), Read.PersonKind, id) && line.At(pass)[id].enabled
    && Read.MemberAt(line.At(k), keys, group, id)
  }

  /** In a snapshot for a valid mapping, a binding and an identity are entitled together by their own rows. */
  lemma EntitledIsListed(m: Mapping, s: Snapshot, b: Binding, i: Identity)
    requires ValidMapping(m) && b in m.bindings && i in m.identities
    ensures Entitled(m, s, KeyOf(b, i), b.role) <==> Listed(s, b, i)
  {
    if Entitled(m, s, KeyOf(b, i), b.role) {
      var c, j :|
        c in m.bindings && j in m.identities && Listed(s, c, j) && KeyOf(b, i) == KeyOf(c, j) && b.role == c.role;
      PrincipalsDiffer(m.identities, i, j);
    }
  }

  lemma ListedIsRows(s: Snapshot, b: Binding, i: Identity, x: nat, y: nat, accounts: set<string>, groups: set<string>)
    requires ValidAccounts(s.accounts, accounts) && ValidGroups(s.groups, accounts, groups)
    requires x < |s.groups| && s.groups[x].group == b.group && y < |s.accounts| && s.accounts[y].id == i.directory
    ensures Listed(s, b, i) <==> i.directory in s.groups[x].ids && s.accounts[y].present && s.accounts[y].enabled
  {
    assert s.groups[x] in s.groups && s.accounts[y] in s.accounts;
    if Listed(s, b, i) {
      var g :| g in s.groups && g.group == b.group && i.directory in g.ids;
      var a :| a in s.accounts && a.id == i.directory && a.present && a.enabled;
      var p :| 0 <= p < |s.groups| && s.groups[p] == g;
      var q :| 0 <= q < |s.accounts| && s.accounts[q] == a;
      assert p == x && q == y;
    }
  }

  lemma BindingIsManaged(st: State, source: string, b: Binding, i: Identity)
    requires StateOk(st) && source in st.sources && b in st.sources[source].mapping.bindings
    ensures ManagedBy(st.managed, source, KeyOf(b, i))
  {
    assert SourceOk(st, source);
  }

  ghost predicate HasGrant(st: State, s: Snapshot, now: int, b: Binding, i: Identity)
    requires StateOk(st)
  {
    ActiveWith(Apply(st, s, now).0.grants, KeyOf(b, i), b.role)
  }

  lemma GrantedIsRows(st: State, s: Snapshot, now: int, x: nat, y: nat)
    requires StateOk(st) && Accepts(st, s, now)
    requires var m := st.sources[s.source].mapping;
      && x < |m.bindings| && s.groups[x].group == m.bindings[x].group
      && y < |m.identities| && s.accounts[y].id == m.identities[y].directory
    ensures var m := st.sources[s.source].mapping;
      HasGrant(st, s, now, m.bindings[x], m.identities[y]) <==>
        m.identities[y].directory in s.groups[x].ids && s.accounts[y].present && s.accounts[y].enabled
  {
    var m := st.sources[s.source].mapping;
    assert SourceOk(st, s.source);
    var b, i := m.bindings[x], m.identities[y];
    BindingIsManaged(st, s.source, b, i);
    AppliedExactly(st, s, now, KeyOf(b, i), b.role);
    EntitledIsListed(m, s, b, i);
    ListedIsRows(s, b, i, x, y, DirectoryIds(m.identities), GroupIds(m.bindings));
  }

  lemma RowIsMember(read: Read.Snapshot, m: Mapping, keys: Read.Keys, line: Read.Timeline, clock: nat, next: nat,
      x: nat, y: nat, k: nat)
    requires Read.Consistent(read, AccountIds(m), BoundGroups(m), keys, line, clock, next)
    requires x < |m.bindings| && y < |m.identities|
    requires Read.Exact(read.groups[x], m.bindings[x].group, AccountIds(m), keys, line, clock, k)
    ensures m.identities[y].directory in read.groups[x].ids && read.accounts[y].present && read.accounts[y].enabled <==>
      EnabledMember(line, keys, m.bindings[x].group, m.identities[y].directory, clock + y, k)
  {
    assert AccountIds(m)[y] == m.identities[y].directory;
    assert Read.Reported(read.accounts[y], AccountIds(m)[y], line, clock + y, next + y);
  }

  /** The binding's grants are exactly the enabled members of its group as search k met it. */
  ghost predicate GrantsAreMembers(st: State, s: Snapshot, now: int, x: nat, keys: Read.Keys, line: Read.Timeline,
      clock: nat, k: nat)
    requires StateOk(st) && s.source in st.sources && x < |st.sources[s.source].mapping.bindings|
  {
    var m := st.sources[s.source].mapping;
    forall y :: 0 <= y < |m.identities| ==>
      (HasGrant(st, s, now, m.bindings[x], m.identities[y]) <==>
        EnabledMember(line, keys, m.bindings[x].group, m.identities[y].directory, clock + y, k))
  }

  lemma GrantsAreExact(st: State, s: Snapshot, now: int, read: Read.Snapshot, keys: Read.Keys,
                       line: Read.Timeline, clock: nat, next: nat, x: nat, k: nat)
    requires StateOk(st) && Accepts(st, s, now) && Carries(s, read)
    requires var m := st.sources[s.source].mapping;
      && x < |m.bindings| && Read.Consistent(read, AccountIds(m), BoundGroups(m), keys, line, clock, next)
      && Read.Exact(read.groups[x], m.bindings[x].group, AccountIds(m), keys, line, clock, k)
    ensures GrantsAreMembers(st, s, now, x, keys, line, clock, k)
  {
    var m := st.sources[s.source].mapping;
    forall y | 0 <= y < |m.identities|
      ensures HasGrant(st, s, now, m.bindings[x], m.identities[y]) <==>
        EnabledMember(line, keys, m.bindings[x].group, m.identities[y].directory, clock + y, k)
    {
      assert Read.Reported(read.accounts[y], AccountIds(m)[y], line, clock + y, next + y);
      GrantedIsRows(st, s, now, x, y);
      RowIsMember(read, m, keys, line, clock, next, x, y, k);
    }
  }

  /** After a consistent read is applied, the grants of each binding are exactly the directory's enabled
      members of its group, as met by one search of the read that is the same for all accounts. */
  lemma SyncIsExact(st: State, s: Snapshot, now: int, read: Read.Snapshot, keys: Read.Keys,
                    line: Read.Timeline, clock: nat, next: nat, x: nat)
    requires StateOk(st) && Accepts(st, s, now) && Carries(s, read)
    requires var m := st.sources[s.source].mapping;
      x < |m.bindings| && Read.Consistent(read, AccountIds(m), BoundGroups(m), keys, line, clock, next)
    ensures exists k: nat ::
      clock + |st.sources[s.source].mapping.identities| <= k < next
        && GrantsAreMembers(st, s, now, x, keys, line, clock, k)
  {
    var m := st.sources[s.source].mapping;
    var ids, groups := AccountIds(m), BoundGroups(m);
    assert groups[x] == m.bindings[x].group;
    assert Read.ExactOnce(read.groups[x], groups[x], ids, keys, line, clock, next);
    var k: nat :| clock + |ids| <= k < next && Read.Exact(read.groups[x], groups[x], ids, keys, line, clock, k);
    GrantsAreExact(st, s, now, read, keys, line, clock, next, x, k);
  }
}
