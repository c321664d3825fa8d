/** What the directory transactions decide, told on configurations, snapshots and grants alone. */
module DirectoryRulings {
  import opened Base
  import opened Digraphs
  import opened DirectoryMappings
  import opened Reconciliation
  import opened DirectoryStore

  // ----- configuration

  /** No namespace of the mapping is managed by another source. */
  ghost predicate TakesNone(st: State, m: Mapping) {
    forall n :: n in m.namespaces && n in st.managed ==> st.managed[n] == m.source
  }

  /** A configuration succeeds exactly when the mapping is valid and takes no namespace over, and either
      repeats the stored revision and digest, or is newer than the stored one, if any, and approves each
      namespace that is not managed yet. Only the latter changes anything. */
  lemma ConfigureExactly(st: State, m: Mapping, digest: nat, clash: bool)
    ensures var (after, ok) := Configure(st, m, digest, clash);
      var newer := m.source !in st.sources || st.sources[m.source].revision < m.revision;
      && (ok <==>
           && ValidMapping(m) && !clash && TakesNone(st, m)
           && if newer then forall n :: n in m.namespaces ==> n in st.managed || n in m.approved
              else st.sources[m.source].revision == m.revision && st.sources[m.source].digest == digest)
      && (!ok || !newer ==> after == st)
      && (ok && newer ==>
           && after == st.(sources := after.sources, managed := after.managed)
           && after.sources == st.sources[m.source := Source(m.revision, digest, m, None)]
           && (forall n :: n in after.managed <==> n in st.managed || n in m.namespaces)
           && (forall n :: n in after.managed ==>
                after.managed[n] == if n in st.managed then st.managed[n] else m.source))
  {
  }

  /** The configuration step that brought a namespace under its source: valid, and approving it. */
  ghost predicate Adopts(st: State, step: Step, n: string, source: string) {
    && step.ConfigureStep? && step.m.source == source && n in step.m.namespaces && n in step.m.approved
    && ValidMapping(step.m) && !step.clash && n !in st.managed
  }

  lemma NextManages(st: State, step: Step, n: string)
    requires StateOk(st)
    ensures n in st.managed ==> n in Next(st, step).managed && Next(st, step).managed[n] == st.managed[n]
    ensures n !in st.managed && n in Next(st, step).managed ==> Adopts(st, step, n, Next(st, step).managed[n])
  {
  }

  lemma EmptyOk()
    ensures StateOk(State(map[], map[], map[], multiset{}, 0))
  {
  }

  ghost function After(steps: seq<Step>): (r: State)
    ensures StateOk(r)
  {
    EmptyOk();
    Run(State(map[], map[], map[], multiset{}, 0), steps)
  }

  /** Along every run, a namespace is managed only by the source of a valid mapping that approved it when
      it was not managed yet. */
  lemma {:induction false} ManagedByApproval(steps: seq<Step>, n: string) returns (p: nat)
    requires n in After(steps).managed
    ensures p < |steps| && Adopts(After(steps[..p]), steps[p], n, After(steps).managed[n])
  {
    var before, last := steps[..|steps| - 1], steps[|steps| - 1];
    NextManages(After(before), last, n);
    if n in After(before).managed {
      p := ManagedByApproval(before, n);
      assert before[..p] == steps[..p];
    } else {
      p := |steps| - 1;
    }
  }

  /** And stays with that source in every continuation. */
  lemma {:induction false} ManagedForGood(st: State, more: seq<Step>, n: string)
    requires StateOk(st) && n in st.managed
    ensures n in Run(st, more).managed && Run(st, more).managed[n] == st.managed[n]
  {
    if more != [] {
      ManagedForGood(st, more[..|more| - 1], n);
      NextManages(Run(st, more[..|more| - 1]), more[|more| - 1], n);
    }
  }

  // ----- what a mapping has to be

  /** Sizes, and texts that name known things. */
  ghost predicate WithinBounds(m: Mapping) {
    && 1 <= |m.source| <= 128 && 1 <= m.revision && 1 <= |m.namespaces| <= 320 && |m.bindings| <= 1280
    && |m.identities| <= 10000
    && (forall n :: n in m.namespaces ==> IsId(n)) && (forall n :: n in m.approved ==> n in m.namespaces)
    && (forall b :: b in m.bindings ==>
         IsId(b.group) && b.namespace in m.namespaces
           && b.role in ["viewer", "submitter", "operator", "namespace_admin"])
    && (forall i :: i in m.identities ==>
         IsId(i.directory) && IsId(i.principal) && |i.display| <= 512 && |i.aliases| <= 16)
  }

  /** The identity signs in as that subject of that issuer. */
  predicate SignsInAs(i: Identity, a: Alias) {
    (i.issuer == a.issuer && i.subject == a.subject) || a in i.aliases
  }

  /** Groups, accounts, principals and sign-in aliases each belong to one entry of the mapping. */
  ghost predicate Unambiguous(m: Mapping) {
    && (forall x, y :: 0 <= x < y < |m.namespaces| ==> m.namespaces[x] != m.namespaces[y])
    && (forall x, y :: 0 <= x < y < |m.bindings| ==> m.bindings[x].group != m.bindings[y].group)
    && (forall x, y :: 0 <= x < y < |m.identities| ==> m.identities[x].directory != m.identities[y].directory)
    && (forall x, y :: 0 <= x < y < |m.identities| ==> m.identities[x].principal != m.identities[y].principal)
    && (forall x, y, a :: 0 <= x < y < |m.identities| && SignsInAs(m.identities[x], a) ==>
         !SignsInAs(m.identities[y], a))
    && (forall i, a :: i in m.identities && SignsInAs(i, a) ==>
         1 <= |a.issuer| <= 512 && 1 <= |a.subject| <= 512 && NUL !in a.issuer && NUL !in a.subject)
  }

  lemma AliasesAre(i: Identity, a: Alias)
    ensures a in IdentityAliases(i) <==> SignsInAs(i, a)
  {
  }

  lemma IdentitiesExactly(identities: seq<Identity>)
    ensures ValidIdentities(identities) <==>
      && (forall x :: 0 <= x < |identities| ==> ValidIdentity(identities[x]))
      && (forall x, y :: 0 <= x < y < |identities| ==>
           identities[x].directory != identities[y].directory && identities[x].principal != identities[y].principal)
      && (forall x, y, a :: 0 <= x < y < |identities| && SignsInAs(identities[x], a) ==> !SignsInAs(identities[y], a))
  {
    forall i: Identity, a ensures a in IdentityAliases(i) <==> SignsInAs(i, a) { AliasesAre(i, a); }
    if ValidIdentities(identities) {
      forall x, y, a | 0 <= x < y < |identities| && SignsInAs(identities[x], a) ensures !SignsInAs(identities[y], a) {
        assert Apart(identities[x], identities[y]);
      }
    }
  }

  lemma IdentityExactly(i: Identity)
    ensures ValidIdentity(i) <==>
      && IsId(i.directory) && IsId(i.principal) && |i.display| <= 512 && |i.aliases| <= 16
      && forall a :: SignsInAs(i, a) ==>
           1 <= |a.issuer| <= 512 && 1 <= |a.subject| <= 512 && NUL !in a.issuer && NUL !in a.subject
  {
    forall a ensures a in IdentityAliases(i) <==> SignsInAs(i, a) { AliasesAre(i, a); }
  }

  /** The mappings that are accepted are those within bounds that leave nothing ambiguous. */
  lemma MappingExactly(m: Mapping)
    ensures ValidMapping(m) <==> WithinBounds(m) && Unambiguous(m)
  {
    IdentitiesExactly(m.identities);
    forall i ensures i in m.identities ==> (ValidIdentity(i) <==>
      && IsId(i.directory) && IsId(i.principal) && |i.display| <= 512 && |i.aliases| <= 16
      && forall a :: SignsInAs(i, a) ==>
           1 <= |a.issuer| <= 512 && 1 <= |a.subject| <= 512 && NUL !in a.issuer && NUL !in a.subject)
    {
      IdentityExactly(i);
    }
  }

  // ----- which snapshots are accepted

  /** Every configured account is observed once, and no other; only a present one can be enabled. */
  ghost predicate ObservesAccounts(m: Mapping, s: Snapshot) {
    && (forall x, y :: 0 <= x < y < |s.accounts| ==> s.accounts[x].id != s.accounts[y].id)
    && (set a | a in s.accounts :: a.id) == (set i | i in m.identities :: i.directory)
    && (forall a :: a in s.accounts && a.enabled ==> a.present)
  }

  /** Every configured group is observed once, and no other, with distinct configured members, and none if
      it is absent. */
  ghost predicate ObservesGroups(m: Mapping, s: Snapshot) {
    && (forall x, y :: 0 <= x < y < |s.groups| ==> s.groups[x].group != s.groups[y].group)
    && (set g | g in s.groups :: g.group) == (set b | b in m.bindings :: b.group)
    && (forall g :: g in s.groups ==> Distinct(g.ids) && (!g.present ==> g.ids == []))
    && (forall g, id :: g in s.groups && id in g.ids ==> id in set i | i in m.identities :: i.directory)
  }

  /** Of two lists of distinct names, one within the other, the lengths agree exactly when the names do. */
  lemma SameNames(a: set<string>, b: set<string>, n: nat, k: nat)
    requires a <= b && |a| == n && |b| == k
    ensures n == k <==> a == b
  {
    if a != b {
      var x :| x in b && x !in a;
      SubsetSize(a + {x}, b);
    }
  }

  lemma {:induction false} CountIdentities(identities: seq<Identity>)
    requires forall x, y :: 0 <= x < y < |identities| ==> identities[x].directory != identities[y].directory
    ensures |DirectoryIds(identities)| == |identities|
  {
    if identities != [] {
      var rest, last := identities[..|identities| - 1], identities[|identities| - 1];
      CountIdentities(rest);
      assert DirectoryIds(identities) == DirectoryIds(rest) + {last.directory};
    }
  }

  lemma {:induction false} CountBindings(bindings: seq<Binding>)
    requires forall x, y :: 0 <= x < y < |bindings| ==> bindings[x].group != bindings[y].group
    ensures |GroupIds(bindings)| == |bindings|
  {
    if bindings != [] {
      var rest, last := bindings[..|bindings| - 1], bindings[|bindings| - 1];
      CountBindings(rest);
      assert GroupIds(bindings) == GroupIds(rest) + {last.group};
    }
  }

  ghost function ObservedGroups(groups: seq<Membership>): set<string> {
    set k | 0 <= k < |groups| :: groups[k].group
  }

  lemma {:induction false} CountGroups(groups: seq<Membership>)
    requires forall x, y :: 0 <= x < y < |groups| ==> groups[x].group != groups[y].group
    ensures |ObservedGroups(groups)| == |groups|
  {
    if groups != [] {
      var rest, last := groups[..|groups| - 1], groups[|groups| - 1];
      CountGroups(rest);
      assert ObservedGroups(groups) == ObservedGroups(rest) + {last.group};
    }
  }

  lemma AccountNames(accounts: seq<Account>, identities: seq<Identity>)
    ensures (set k | 0 <= k < |accounts| :: accounts[k].id) == set a | a in accounts :: a.id
    ensures DirectoryIds(identities) == set i | i in identities :: i.directory
  {
  }

  lemma GroupNames(groups: seq<Membership>, bindings: seq<Binding>)
    ensures ObservedGroups(groups) == set g | g in groups :: g.group
    ensures GroupIds(bindings) == set b | b in bindings :: b.group
  {
  }

  lemma ValidAccountsAre(accounts: seq<Account>, known: set<string>)
    ensures ValidAccounts(accounts, known) <==>
      && (forall x, y :: 0 <= x < y < |accounts| ==> accounts[x].id != accounts[y].id)
      && (set a | a in accounts :: a.id) <= known && forall a :: a in accounts && a.enabled ==> a.present
  {
  }

  lemma AccountsExactly(m: Mapping, s: Snapshot)
    requires ValidMapping(m)
    ensures |s.accounts| == |m.identities| && ValidAccounts(s.accounts, DirectoryIds(m.identities)) <==>
      ObservesAccounts(m, s)
  {
    MappingExactly(m);
    CountIdentities(m.identities);
    AccountNames(s.accounts, m.identities);
    ValidAccountsAre(s.accounts, DirectoryIds(m.identities));
    var observed := set a | a in s.accounts :: a.id;
    if (forall x, y :: 0 <= x < y < |s.accounts| ==> s.accounts[x].id != s.accounts[y].id)
      && observed <= DirectoryIds(m.identities) {
      CountIds(s.accounts);
      SameNames(observed, DirectoryIds(m.identities), |s.accounts|, |m.identities|);
    }
  }

  lemma ValidGroupsAre(groups: seq<Membership>, accounts: set<string>, known: set<string>)
    ensures ValidGroups(groups, accounts, known) <==>
      && (forall x, y :: 0 <= x < y < |groups| ==> groups[x].group != groups[y].group)
      && (set g | g in groups :: g.group) <= known
      && (forall g :: g in groups ==> Distinct(g.ids) && (!g.present ==> g.ids == []))
      && forall g, id :: g in groups && id in g.ids ==> id in accounts
  {
  }

  lemma GroupsExactly(m: Mapping, s: Snapshot)
    requires ValidMapping(m)
    ensures |s.groups| == |m.bindings| && ValidGroups(s.groups, DirectoryIds(m.identities), GroupIds(m.bindings)) <==>
      ObservesGroups(m, s)
  {
    MappingExactly(m);
    CountBindings(m.bindings);
    AccountNames(s.accounts, m.identities);
    GroupNames(s.groups, m.bindings);
    ValidGroupsAre(s.groups, DirectoryIds(m.identities), GroupIds(m.bindings));
    var observed := set g | g in s.groups :: g.group;
    if (forall x, y :: 0 <= x < y < |s.groups| ==> s.groups[x].group != s.groups[y].group)
      && observed <= GroupIds(m.bindings) {
      CountGroups(s.groups);
      SameNames(observed, GroupIds(m.bindings), |s.groups|, |m.bindings|);
    }
  }

  /** A snapshot is accepted exactly when it is of a configured source at its stored revision and digest and
      of the current epoch, was verified less than 30 seconds ago and at most 5 seconds ahead, after the last
      accepted one, and observes what the mapping configures, within the limits. */
  lemma AcceptsExactly(st: State, s: Snapshot, now: int)
    requires StateOk(st)
    ensures Accepts(st, s, now) <==>
      && s.source in st.sources && s.revision == st.sources[s.source].revision
           && s.digest == st.sources[s.source].digest
      && s.epoch == st.epoch && now - s.verifiedAt < 30_000_000_000 && s.verifiedAt - now <= 5_000_000_000
      && (forall t :: st.sources[s.source].lastVerified == Some(t) ==> t < s.verifiedAt)
      && ObservesAccounts(st.sources[s.source].mapping, s) && ObservesGroups(st.sources[s.source].mapping, s)
      && TotalMembers(s.groups) <= 100_000 && 0 <= s.ignored <= 100_000
  {
    if s.source in st.sources {
      assert SourceOk(st, s.source);
      AccountsExactly(st.sources[s.source].mapping, s);
      GroupsExactly(st.sources[s.source].mapping, s);
    }
  }

  // ----- what an accepted snapshot grants

  /** Some mapped group, observed with the account of the principal among its members while the account is
      present and enabled, gives the principal the role in the namespace. */
  ghost predicate Deserves(m: Mapping, s: Snapshot, principal: string, namespace: string, group: string, role: string) {
    exists b, i, g, a :: b in m.bindings && i in m.identities && g in s.groups && a in s.accounts
      && b == Binding(group, namespace, role) && i.principal == principal
      && g.group == group && i.directory in g.ids && a == Account(i.directory, true, true)
  }

  lemma EntitledExactly(m: Mapping, s: Snapshot, key: Key, role: string)
    ensures Entitled(m, s, key, role) <==>
      key.provenance == Directory && Deserves(m, s, key.principal, key.namespace, key.sourceKey, role)
  {
    if Entitled(m, s, key, role) {
      var b, i :| b in m.bindings && i in m.identities && Listed(s, b, i) && key == KeyOf(b, i) && role == b.role;
      var g :| g in s.groups && g.group == b.group && i.directory in g.ids;
      var a :| a in s.accounts && a.id == i.directory && a.present && a.enabled;
      assert a == Account(i.directory, true, true) && b == Binding(key.sourceKey, key.namespace, role);
    }
  }

  /** After an accepted snapshot, in every run until the source's next one, a directory grant in a namespace
      of the source is active with a role exactly when the snapshot deserves it. */
  lemma GrantsAreDeserved(st: State, s: Snapshot, now: int, more: seq<Step>, key: Key, role: string)
    requires StateOk(st) && Accepts(st, s, now) && key.provenance == Directory
    requires key.namespace in st.managed && st.managed[key.namespace] == s.source
    requires NeverApplies(Next(st, ApplyStep(s, now)), more, s.source)
    ensures var grants := Run(Next(st, ApplyStep(s, now)), more).grants;
      (key in grants && grants[key].active && grants[key].role == role) <==>
        Deserves(st.sources[s.source].mapping, s, key.principal, key.namespace, key.sourceKey, role)
  {
    SnapshotStands(st, s, now, more, key, role);
    EntitledExactly(st.sources[s.source].mapping, s, key, role);
  }
}
