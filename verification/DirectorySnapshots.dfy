/** Reading one consistent membership snapshot from a directory that may change while it is read.

    The directory is a history: its objects at each instant. A search happens at one instant; between two
    searches anything may change. Names of objects are opaque texts, and `keys` gives the normal form under
    which two texts name the same object, or nothing for a text that is no distinguished name. */
module DirectorySnapshots {
  import opened Base
  import opened Digraphs

  type Id = string
  type Name = nat

  datatype Kind = PersonKind | GroupKind

  datatype Object =
    | Person(name: Name, version: nat, enabled: bool)
    | Group(name: Name, version: nat, members: seq<Name>)

  type Directory = map<Id, Object>
  type History = nat -> Directory

  /** The directory's objects at each instant, and the instant of each search by its serial number. */
  datatype Timeline = Timeline(history: History, when: nat -> nat) {
    /** The directory as the search with that number meets it. */
    ghost function At(k: nat): Directory {
      history(when(k))
    }
  }

  /** A returned member attribute: the plain one, a range, or one whose range does not parse. `last` is None for "*". */
  datatype Attribute =
    | Plain(values: seq<Name>)
    | Range(first: int, last: Option<int>, values: seq<Name>)
    | BadRange(values: seq<Name>)
    | Other

  /** An entry of a search result; a version or eligibility that is missing or malformed is None. */
  datatype Entry = Entry(guid: Id, name: Name, version: Option<nat>, enabled: Option<bool>, attributes: seq<Attribute>)

  datatype Query = Find(kind: Kind, id: Id, withMembers: bool) | More(base: Name, start: nat)

  /** Errors and referrals are refusals. */
  datatype Reply = Refused | Entries(list: seq<Entry>)

  /** The reply to the search with that serial number. */
  type Server = (nat, Query) -> Reply
  type Keys = Name -> Option<nat>

  const MAX_MEMBERS := 100000

  // ----- what is assumed of the directory

  ghost predicate Has(d: Directory, kind: Kind, id: Id) {
    id in d && (if kind == PersonKind then d[id].Person? else d[id].Group?)
  }

  /** A range holds members from its first position on; one that ends in "*" reaches the end of the list. */
  ghost predicate Slice(first: int, last: Option<int>, values: seq<Name>, members: seq<Name>) {
    && 0 <= first && first + |values| <= |members| && values == members[first..first + |values|]
    && (last.None? ==> first + |values| == |members|)
  }

  ghost predicate Faithful(attributes: seq<Attribute>, members: seq<Name>) {
    && (forall i :: 0 <= i < |attributes| ==>
         && (attributes[i].Plain? && attributes[i].values != [] ==> attributes[i].values == members)
         && (attributes[i].Range? ==> Slice(attributes[i].first, attributes[i].last, attributes[i].values, members)))
    && (Carriers(attributes) == [] ==> members == [])
  }

  ghost predicate Describes(e: Entry, o: Object, withMembers: bool) {
    && e.name == o.name && (e.version.Some? ==> e.version.value == o.version)
    && (o.Person? && e.enabled.Some? ==> e.enabled.value == o.enabled)
    && (o.Group? && withMembers ==> Faithful(e.attributes, o.members))
  }

  ghost predicate Truthful(reply: Reply, q: Query, d: Directory) {
    reply.Entries? ==>
      match q
      case Find(kind, id, withMembers) =>
        && (reply.list == [] ==> !Has(d, kind, id))
        && (|reply.list| == 1 && reply.list[0].guid == id ==>
             Has(d, kind, id) && Describes(reply.list[0], d[id], withMembers))
      case More(_, _) =>
        |reply.list| == 1 ==>
          Has(d, GroupKind, reply.list[0].guid) && Describes(reply.list[0], d[reply.list[0].guid], true)
  }

  /** Searches happen in order, and each reply is true at its instant. */
  ghost predicate Honest(server: Server, line: Timeline) {
    && (forall i: nat, j: nat :: InOrder(line, i, j))
    && (forall k: nat, q: Query :: Answers(server, line, k, q))
  }

  ghost predicate InOrder(line: Timeline, i: nat, j: nat) {
    i <= j ==> line.when(i) <= line.when(j)
  }

  ghost predicate Answers(server: Server, line: Timeline, k: nat, q: Query) {
    Truthful(server(k, q), q, line.At(k))
  }

  ghost predicate Steady(history: History, id: Id, s: nat, t: nat, u: nat) {
    s <= t <= u && id in history(s) && id in history(u) && history(s)[id].version == history(u)[id].version ==>
      id in history(t) && history(t)[id] == history(s)[id]
  }

  /** Every change of an object raises its version: seen twice at one version, it did not change in between. */
  ghost predicate Versioned(history: History) {
    forall id: Id, s: nat, t: nat, u: nat :: Steady(history, id, s, t, u)
  }

  // ----- what a directory that keeps still and answers everything does

  /** The carriers are one page of the list from `start` on: all of it, the rest of it, or a part that ends
      where it says. */
  ghost predicate Page(carriers: seq<Attribute>, members: seq<Name>, start: nat) {
    || (carriers == [] && members == [] && start == 0)
    || (carriers == [Plain(members)] && members != [] && start == 0)
    || (start <= |members| && carriers == [Range(start, None, members[start..])])
    || (exists stop :: start < stop <= |members| && carriers == [Range(start, Some(stop - 1), members[start..stop])])
  }

  ghost predicate FullEntry(e: Entry, id: Id, o: Object, keys: Keys) {
    && e.guid == id && e.name == o.name && keys(o.name).Some? && e.version == Some(o.version)
    && (o.Person? ==> e.enabled == Some(o.enabled))
  }

  ghost predicate Pages(reply: Reply, id: Id, d: Directory, keys: Keys, start: nat) {
    Has(d, GroupKind, id) && start <= |d[id].members| ==>
      && reply.Entries? && |reply.list| == 1 && FullEntry(reply.list[0], id, d[id], keys)
      && Page(Carriers(reply.list[0].attributes), d[id].members, start)
  }

  ghost predicate Serves(reply: Reply, q: Query, d: Directory, keys: Keys) {
    match q
    case Find(kind, id, withMembers) =>
      && reply.Entries?
      && (if Has(d, kind, id) then |reply.list| == 1 && FullEntry(reply.list[0], id, d[id], keys) else reply.list == [])
      && (kind == GroupKind && withMembers ==> Pages(reply, id, d, keys, 0))
    case More(base, start) => forall id :: id in d && d[id].name == base ==> Pages(reply, id, d, keys, start)
  }

  /** Every search is answered in full from the same objects. */
  ghost predicate Cooperative(server: Server, keys: Keys, d: Directory) {
    forall k: nat, q: Query :: Serves(server(k, q), q, d, keys)
  }

  // ----- one range of members

  /** The attributes that carry members: ranges, and plain ones with values. */
  function Carriers(attributes: seq<Attribute>): seq<Attribute> {
    if attributes == [] then [] else
      var rest, last := Carriers(attributes[..|attributes| - 1]), attributes[|attributes| - 1];
      if last.Other? || (last.Plain? && last.values == []) then rest else rest + [last]
  }

  /** What the single carrier says about members from `start` on, and whether that is all of them. */
  function RangeFrom(carriers: seq<Attribute>, start: nat): Option<(seq<Name>, bool)> {
    if |carriers| > 1 then None
    else if carriers == [] then if start == 0 then Some(([], true)) else None
    else match carriers[0]
      case Plain(values) => if start == 0 then Some((values, true)) else None
      case Range(first, None, values) => if first == start then Some((values, true)) else None
      case Range(first, Some(last), values) =>
        if first == start && first <= last && last - first + 1 == |values| && values != []
          then Some((values, false)) else None
      case _ => None
  }

  method MemberRange(entry: Entry, start: nat) returns (r: Option<(seq<Name>, bool)>)
    ensures r == RangeFrom(Carriers(entry.attributes), start)
  {
    var found: Option<Attribute> := None;
    for i := 0 to |entry.attributes|
      invariant Carriers(entry.attributes[..i]) == if found.Some? then [found.value] else []
    {
      var attribute := entry.attributes[i];
      assert entry.attributes[..i + 1][..i] == entry.attributes[..i];
      if !attribute.Other? {
        if attribute.Plain? && attribute.values == [] { continue; }
        if found.Some? {
          CarriersGrow(entry.attributes, i + 1);
          return None;
        }
        found := Some(attribute);
      }
    }
    assert entry.attributes[..|entry.attributes|] == entry.attributes;
    if found.None? { return if start == 0 then Some(([], true)) else None; }
    match found.value {
      case Plain(values) => return if start != 0 then None else Some((values, true));
      case Range(first, last, values) =>
        if first != start { return None; }
        if last.None? { return Some((values, true)); }
        if last.value < first || last.value - first + 1 != |values| || |values| == 0 { return None; }
        return Some((values, false));
      case _ => return None;
    }
  }

  lemma {:induction false} CarriersGrow(attributes: seq<Attribute>, k: nat)
    requires k <= |attributes|
    ensures |Carriers(attributes[..k])| <= |Carriers(attributes)|
    decreases |attributes| - k
  {
    if k < |attributes| {
      assert attributes[..k + 1][..k] == attributes[..k];
      CarriersGrow(attributes, k + 1);
    } else {
      assert attributes[..k] == attributes;
    }
  }

  lemma {:induction false} CarriersAreAttributes(attributes: seq<Attribute>)
    ensures forall c :: c in Carriers(attributes) ==> c in attributes && !c.Other? && !(c.Plain? && c.values == [])
  {
    if attributes != [] { CarriersAreAttributes(attributes[..|attributes| - 1]); }
  }

  predicate Carries(a: Attribute) {
    a.Range? || a.BadRange? || (a.Plain? && a.values != [])
  }

  /** There is no carrier if no attribute carries members, and one if exactly one does. */
  lemma {:induction false} CarriersExactly(attributes: seq<Attribute>)
    ensures Carriers(attributes) == [] <==> forall i :: 0 <= i < |attributes| ==> !Carries(attributes[i])
    ensures |Carriers(attributes)| == 1 <==> exists i :: 0 <= i < |attributes| && OnlyCarrier(attributes, i)
    ensures forall i :: 0 <= i < |attributes| && OnlyCarrier(attributes, i) ==> Carriers(attributes) == [attributes[i]]
  {
    if attributes != [] {
      var rest, last := attributes[..|attributes| - 1], |attributes| - 1;
      CarriersExactly(rest);
      if Carries(attributes[last]) && Carriers(rest) == [] { assert OnlyCarrier(attributes, last); }
      if !Carries(attributes[last]) {
        if i :| 0 <= i < |rest| && OnlyCarrier(rest, i) { assert OnlyCarrier(attributes, i); }
      }
      forall i | 0 <= i < |attributes| && OnlyCarrier(attributes, i)
        ensures Carriers(attributes) == [attributes[i]]
      {
        if i < last {
          assert !Carries(attributes[last]) && OnlyCarrier(rest, i);
        } else {
          forall k | 0 <= k < |rest| ensures !Carries(rest[k]) { assert rest[k] == attributes[k]; }
        }
      }
    }
  }

  ghost predicate OnlyCarrier(attributes: seq<Attribute>, i: int)
    requires 0 <= i < |attributes|
  {
    Carries(attributes[i]) && forall k :: 0 <= k < |attributes| && k != i ==> !Carries(attributes[k])
  }

  /** Which single carrier is taken, and for what. */
  lemma RangeExactly(carriers: seq<Attribute>, start: nat, values: seq<Name>)
    ensures RangeFrom(carriers, start) == Some((values, true)) <==>
      || (carriers == [] && values == [] && start == 0) || (carriers == [Plain(values)] && start == 0)
      || carriers == [Range(start, None, values)]
    ensures RangeFrom(carriers, start) == Some((values, false)) <==>
      values != [] && carriers == [Range(start, Some(start + |values| - 1), values)]
  {
  }

  /** An accepted range of a faithful entry continues the list exactly where the last one stopped. */
  lemma RangeContinues(attributes: seq<Attribute>, members: seq<Name>, start: nat)
    requires Faithful(attributes, members) && RangeFrom(Carriers(attributes), start).Some? && start <= |members|
    ensures var (values, last) := RangeFrom(Carriers(attributes), start).value;
      && members[..start] + values <= members && (last ==> members[..start] + values == members)
           && (!last ==> values != [])
  {
    CarriersAreAttributes(attributes);
    var carriers := Carriers(attributes);
    if carriers != [] {
      assert carriers[0] in attributes;
      var i :| 0 <= i < |attributes| && attributes[i] == carriers[0];
    }
  }

  /** A page is taken as it is. */
  lemma PageIsRange(carriers: seq<Attribute>, members: seq<Name>, start: nat)
    requires Page(carriers, members, start) && start <= |members|
    ensures RangeFrom(carriers, start).Some?
    ensures var (values, last) := RangeFrom(carriers, start).value;
      && start + |values| <= |members| && members[..start] + values == members[..start + |values|]
      && (last ==> start + |values| == |members|)
  {
  }

  // ----- one group

  /** The object with that id, if there is one; None for any doubt about the answer. */
  function FindObject(server: Server, keys: Keys, clock: nat, kind: Kind, id: Id,
      withMembers: bool): Option<Option<Entry>> {
    match server(clock, Find(kind, id, withMembers))
    case Refused => None
    case Entries(list) =>
      if |list| > 1 then None else if list == [] then Some(None)
      else if list[0].guid != id || keys(list[0].name).None? then None else Some(Some(list[0]))
  }

  /** An object is found exactly if it is the one entry of the answer, and is missing exactly if there is none. */
  lemma FindExactly(server: Server, keys: Keys, clock: nat, kind: Kind, id: Id, withMembers: bool, entry: Entry)
    ensures FindObject(server, keys, clock, kind, id, withMembers) == Some(None) <==>
      server(clock, Find(kind, id, withMembers)) == Entries([])
    ensures FindObject(server, keys, clock, kind, id, withMembers) == Some(Some(entry)) <==>
      server(clock, Find(kind, id, withMembers)) == Entries([entry]) && entry.guid == id && keys(entry.name).Some?
  {
  }

  lemma FindIsTrue(server: Server, keys: Keys, clock: nat, kind: Kind, id: Id, withMembers: bool, line: Timeline)
    requires Honest(server, line) && FindObject(server, keys, clock, kind, id, withMembers).Some?
    ensures var found := FindObject(server, keys, clock, kind, id, withMembers).value; var d := line.At(clock);
      if found.None? then !Has(d, kind, id)
      else Has(d, kind, id) && Describes(found.value, d[id], withMembers) && keys(d[id].name).Some?
  {
    assert Answers(server, line, clock, Find(kind, id, withMembers));
  }

  lemma FindIsServed(server: Server, keys: Keys, clock: nat, kind: Kind, id: Id, withMembers: bool, d: Directory)
    requires Cooperative(server, keys, d)
    ensures var found := FindObject(server, keys, clock, kind, id, withMembers);
      && found.Some? && (found.value.Some? <==> Has(d, kind, id))
      && (found.value.Some? ==> FullEntry(found.value.value, id, d[id], keys))
      && (found.value.Some? && kind == GroupKind && withMembers ==>
           Page(Carriers(found.value.value.attributes), d[id].members, 0))
  {
    var q := Find(kind, id, withMembers);
    assert Serves(server(clock, q), q, d, keys);
  }

  lemma MoreIsServed(server: Server, keys: Keys, clock: nat, id: Id, start: nat, d: Directory)
    requires Cooperative(server, keys, d) && Has(d, GroupKind, id) && start <= |d[id].members|
    ensures Pages(server(clock, More(d[id].name, start)), id, d, keys, start)
  {
    var q := More(d[id].name, start);
    assert Serves(server(clock, q), q, d, keys);
  }

  /** The object at the first of two searches that saw the same version is the object at the second. */
  lemma SameVersionSameObject(server: Server, line: Timeline, id: Id, i: nat, j: nat)
    requires Honest(server, line) && Versioned(line.history) && i <= j
    requires id in line.At(i) && id in line.At(j) && line.At(i)[id].version == line.At(j)[id].version
    ensures line.At(j)[id] == line.At(i)[id]
  {
    assert InOrder(line, i, j);
    assert Steady(line.history, id, line.when(i), line.when(j), line.when(j));
  }

  /** What a read of a group reports, at one instant. */
  ghost predicate GroupAt(d: Directory, id: Id, members: seq<Name>, present: bool) {
    if present then Has(d, GroupKind, id) && d[id].members == members else !Has(d, GroupKind, id) && members == []
  }

  /** Part of the way through a group: an entry of it, at the version it had at the start. */
  ghost predicate Midway(d: Directory, id: Id, entry: Entry, version: nat, members: seq<Name>) {
    Has(d, GroupKind, id) && Describes(entry, d[id], true) && d[id].version == version && members <= d[id].members
  }

  lemma NextRange(server: Server, line: Timeline, id: Id, clock: nat, next: nat, q: Query, before: Entry, version: nat,
      members: seq<Name>)
    requires Honest(server, line) && Versioned(line.history) && clock <= next && q.More?
    requires Midway(line.At(clock), id, before, version, members)
    requires var reply := server(next, q);
      reply.Entries? && |reply.list| == 1 && reply.list[0].guid == id && reply.list[0].version == Some(version)
    ensures Midway(line.At(clock), id, server(next, q).list[0], version, members)
  {
    assert Answers(server, line, next, q);
    SameVersionSameObject(server, line, id, clock, next);
  }

  lemma Advance(d: Directory, id: Id, entry: Entry, version: nat, members: seq<Name>)
    requires Midway(d, id, entry, version, members) && RangeFrom(Carriers(entry.attributes), |members|).Some?
    ensures var (values, last) := RangeFrom(Carriers(entry.attributes), |members|).value;
      Midway(d, id, entry, version, members + values) && (last ==> d[id].members == members + values)
  {
    assert d[id].members[..|members|] == members;
    RangeContinues(entry.attributes, d[id].members, |members|);
  }

  /** At the start of a turn, with a server that answers everything: the entry is the page to take. */
  ghost predicate OnPage(d: Directory, keys: Keys, id: Id, entry: Entry, version: nat, members: seq<Name>) {
    && Has(d, GroupKind, id) && FullEntry(entry, id, d[id], keys) && version == d[id].version
    && members <= d[id].members && Page(Carriers(entry.attributes), d[id].members, |members|)
  }

  lemma TurnPage(d: Directory, keys: Keys, id: Id, entry: Entry, version: nat, members: seq<Name>)
    requires OnPage(d, keys, id, entry, version, members)
    ensures RangeFrom(Carriers(entry.attributes), |members|).Some?
    ensures var (values, last) := RangeFrom(Carriers(entry.attributes), |members|).value;
      members + values <= d[id].members && (last ==> members + values == d[id].members)
  {
    assert d[id].members[..|members|] == members;
    PageIsRange(Carriers(entry.attributes), d[id].members, |members|);
  }

  /** The group was the same at each search from clock to before next. */
  lemma SameThroughout(server: Server, line: Timeline, id: Id, clock: nat, next: nat, k: nat)
    requires Honest(server, line) && Versioned(line.history) && clock <= k < next
    requires id in line.At(clock) && id in line.At(next - 1)
    requires line.At(clock)[id].version == line.At(next - 1)[id].version
    ensures id in line.At(k) && line.At(k)[id] == line.At(clock)[id]
  {
    assert InOrder(line, clock, k) && InOrder(line, k, next - 1);
    assert Steady(line.history, id, line.when(clock), line.when(k), line.when(next - 1));
  }

  /** What a read of a group over the searches from clock to before next promises. */
  ghost predicate ReadRight(server: Server, line: Timeline, id: Id, members: seq<Name>, present: bool, clock: nat,
      next: nat) {
    Honest(server, line) && Versioned(line.history) ==>
      forall k: nat :: clock <= k < next ==> GroupAt(line.At(k), id, members, present)
  }

  /** Takes page after page of a group that was found with the given entry and version. */
  method ReadRanges(server: Server, keys: Keys, from: nat, id: Id, found: Entry, version: nat, ghost clock: nat,
      ghost line: Timeline, ghost d: Directory)
    returns (r: Option<seq<Name>>, next: nat)
    requires clock < from
    requires Honest(server, line) && Versioned(line.history) ==> Midway(line.At(clock), id, found, version, [])
    requires Cooperative(server, keys, d) && Limited(d, id) ==> OnPage(d, keys, id, found, version, [])
    ensures from <= next && (r.Some? ==> |r.value| <= MAX_MEMBERS)
    ensures r.Some? && Honest(server, line) && Versioned(line.history) ==>
      Midway(line.At(clock), id, found, version, r.value) && line.At(clock)[id].members == r.value
    ensures Cooperative(server, keys, d) && Limited(d, id) ==> r == Some(d[id].members)
  {
    ghost var now, sure := line.At(clock), Honest(server, line) && Versioned(line.history);
    ghost var helped := Cooperative(server, keys, d) && Limited(d, id);
    var entry, members: seq<Name>, start := found, [], 0;
    next := from;
    while true
      invariant from <= next && start == |members| <= MAX_MEMBERS
      invariant sure ==> Midway(now, id, entry, version, members)
      invariant helped ==> OnPage(d, keys, id, entry, version, members)
      decreases MAX_MEMBERS - |members|
    {
      if helped { TurnPage(d, keys, id, entry, version, members); }
      var range := MemberRange(entry, start);
      if range.None? { return None, next; }
      var (values, last) := range.value;
      if sure { Advance(now, id, entry, version, members); }
      members := members + values;
      if |members| > MAX_MEMBERS { return None, next; }
      if last { return Some(members), next; }
      start := start + |values|;
      var q := More(entry.name, start);
      var reply := server(next, q);
      next := next + 1;
      if helped { MoreIsServed(server, keys, next - 1, id, start, d); }
      if reply.Refused? || |reply.list| != 1 { return None, next; }
      if reply.list[0].version != Some(version) || reply.list[0].guid != id { return None, next; }
      if sure { NextRange(server, line, id, clock, next - 1, q, entry, version, members); }
      entry := reply.list[0];
    }
  }

  ghost predicate Limited(d: Directory, id: Id) {
    Has(d, GroupKind, id) ==> |d[id].members| <= MAX_MEMBERS
  }

  /** An accepted group is its whole member list, the same at each of the searches, however the server cut
      it up; and a server that answers everything has its group accepted, unless it has too many members. */
  method ReadGroup(server: Server, keys: Keys, clock: nat, id: Id, ghost line: Timeline, ghost d: Directory)
    returns (r: Option<(seq<Name>, bool)>, next: nat)
    ensures clock < next
    ensures r.Some? ==> |r.value.0| <= MAX_MEMBERS && ReadRight(server, line, id, r.value.0, r.value.1, clock, next)
    ensures Cooperative(server, keys, d) && Limited(d, id) ==>
      r == Some(if Has(d, GroupKind, id) then (d[id].members, true) else ([], false))
  {
    ghost var sure := Honest(server, line) && Versioned(line.history);
    ghost var helped := Cooperative(server, keys, d) && Limited(d, id);
    var first := FindObject(server, keys, clock, GroupKind, id, true);
    next := clock + 1;
    if helped { FindIsServed(server, keys, clock, GroupKind, id, true, d); }
    if first.None? { return None, next; }
    if sure { FindIsTrue(server, keys, clock, GroupKind, id, true, line); }
    if first.value.None? { return Some(([], false)), next; }
    var entry := first.value.value;
    if entry.version.None? { return None, next; }
    var version := entry.version.value;
    var members;
    members, next := ReadRanges(server, keys, next, id, entry, version, clock, line, d);
    if members.None? { return None, next; }
    var final := FindObject(server, keys, next, GroupKind, id, false);
    if helped { FindIsServed(server, keys, next, GroupKind, id, false, d); }
    if sure && final.Some? { FindIsTrue(server, keys, next, GroupKind, id, false, line); }
    next := next + 1;
    if final.None? || final.value.None? || final.value.value.version != Some(version) { return None, next; }
    if sure {
      forall k: nat | clock <= k < next ensures GroupAt(line.At(k), id, members.value, true) {
        SameThroughout(server, line, id, clock, next, k);
      }
    }
    return Some((members.value, true)), next;
  }

  // ----- the accounts, before and after

  datatype Account = Account(id: Id, present: bool, enabled: bool)

  /** What the first pass learns: per account found, the key of its name and its version; and accounts by key. */
  datatype Known = Known(byKey: map<nat, Id>, names: map<Id, nat>, versions: map<Id, nat>)

  ghost predicate Bijective(known: Known) {
    && known.names.Keys == known.versions.Keys
    && (forall k :: k in known.byKey ==> known.byKey[k] in known.names && known.names[known.byKey[k]] == k)
    && (forall id :: id in known.names ==> known.names[id] in known.byKey && known.byKey[known.names[id]] == id)
  }

  /** The account was found, or not, at that instant as the first pass noted. */
  ghost predicate Seen(known: Known, id: Id, account: Account, keys: Keys, d: Directory) {
    && account.id == id && (account.present <==> id in known.versions) && (account.present <==> Has(d, PersonKind, id))
    && (account.present ==>
         id in known.names && keys(d[id].name) == Some(known.names[id]) && d[id].version == known.versions[id]
                            && d[id].enabled == account.enabled)
  }

  ghost predicate AllSeen(known: Known, ids: seq<Id>, accounts: seq<Account>, keys: Keys, line: Timeline, clock: nat) {
    |accounts| == |ids| && forall j :: 0 <= j < |ids| ==> Seen(known, ids[j], accounts[j], keys, line.At(clock + j))
  }

  function Note(known: Known, id: Id, key: nat, version: nat): Known {
    Known(known.byKey[key := id], known.names[id := key], known.versions[id := version])
  }

  /** What is known after an account: no more, or a note of it. */
  ghost predicate Noted(before: Known, known: Known, id: Id) {
    known == before || exists key, version :: known == Note(before, id, key, version)
  }

  lemma NoteIsBijective(known: Known, id: Id, key: nat, version: nat)
    requires Bijective(known) && id !in known.names && key !in known.byKey
    ensures Bijective(Note(known, id, key, version))
  {
  }

  lemma SeenAlso(before: Known, known: Known, ids: seq<Id>, id: Id, accounts: seq<Account>, account: Account,
      keys: Keys, line: Timeline, clock: nat)
    requires AllSeen(before, ids, accounts, keys, line, clock) && id !in ids
    requires Noted(before, known, id)
    requires Seen(known, id, account, keys, line.At(clock + |ids|))
    ensures AllSeen(known, ids + [id], accounts + [account], keys, line, clock)
  {
    forall j | 0 <= j < |ids| ensures Seen(known, ids[j], accounts[j], keys, line.At(clock + j)) {
      assert Seen(before, ids[j], accounts[j], keys, line.At(clock + j)) && ids[j] != id;
    }
  }

  /** No two of the accounts have the same name. */
  ghost predicate OwnNames(d: Directory, keys: Keys, ids: seq<Id>) {
    forall i, j :: 0 <= i < j < |ids| && Has(d, PersonKind, ids[i]) && Has(d, PersonKind, ids[j]) ==>
      keys(d[ids[i]].name) != keys(d[ids[j]].name)
  }

  /** What was noted is what the directory has. */
  ghost predicate Agrees(known: Known, ids: seq<Id>, keys: Keys, d: Directory) {
    forall j :: 0 <= j < |ids| ==> AgreesOn(known, ids[j], keys, d)
  }

  ghost predicate AgreesOn(known: Known, id: Id, keys: Keys, d: Directory) {
    && (id in known.names <==> Has(d, PersonKind, id)) && (id in known.versions <==> Has(d, PersonKind, id))
    && (Has(d, PersonKind, id) ==> keys(d[id].name) == Some(known.names[id]) && known.versions[id] == d[id].version)
  }

  /** No account noted so far has the name of this one. */
  ghost predicate NewName(known: Known, id: Id, keys: Keys, d: Directory) {
    forall k :: k in known.byKey && Has(d, PersonKind, id) ==> keys(d[id].name) != Some(k)
  }

  lemma NameIsNew(known: Known, ids: seq<Id>, j: nat, keys: Keys, d: Directory)
    requires Bijective(known) && j < |ids| && known.names.Keys <= (set id | id in ids[..j]) && Distinct(ids)
    requires Agrees(known, ids[..j], keys, d) && OwnNames(d, keys, ids)
    ensures NewName(known, ids[j], keys, d)
  {
    forall id | id in known.names && Has(d, PersonKind, ids[j]) ensures keys(d[ids[j]].name) != Some(known.names[id]) {
      var i :| 0 <= i < j && ids[..j][i] == id;
      assert AgreesOn(known, ids[..j][i], keys, d);
    }
  }

  lemma AgreesAlso(before: Known, known: Known, ids: seq<Id>, id: Id, keys: Keys, d: Directory)
    requires Agrees(before, ids, keys, d) && id !in ids && AgreesOn(known, id, keys, d)
    requires Noted(before, known, id)
    ensures Agrees(known, ids + [id], keys, d)
  {
    forall j | 0 <= j < |ids| ensures AgreesOn(known, ids[j], keys, d) {
      assert AgreesOn(before, ids[j], keys, d) && ids[j] != id;
    }
  }

  method ReadAccount(server: Server, keys: Keys, at: nat, id: Id, known: Known, ghost line: Timeline,
      ghost d: Directory)
    returns (r: Option<(Account, Known)>)
    requires Bijective(known) && id !in known.names
    ensures r.Some? ==> Bijective(r.value.1) && Noted(known, r.value.1, id)
    ensures r.Some? && Honest(server, line) ==> Seen(r.value.1, id, r.value.0, keys, line.At(at))
    ensures Cooperative(server, keys, d) && NewName(known, id, keys, d) ==>
      r.Some? && AgreesOn(r.value.1, id, keys, d)
  {
    var found := FindObject(server, keys, at, PersonKind, id, false);
    if Cooperative(server, keys, d) { FindIsServed(server, keys, at, PersonKind, id, false, d); }
    if found.None? { return None; }
    if Honest(server, line) { FindIsTrue(server, keys, at, PersonKind, id, false, line); }
    if found.value.None? { return Some((Account(id, false, false), known)); }
    var entry := found.value.value;
    if entry.version.None? || entry.enabled.None? || keys(entry.name).None? { return None; }
    var key := keys(entry.name).value;
    if key in known.byKey { return None; }
    NoteIsBijective(known, id, key, entry.version.value);
    return Some((Account(id, true, entry.enabled.value), Note(known, id, key, entry.version.value)));
  }

  method ReadAccounts(server: Server, keys: Keys, clock: nat, ids: seq<Id>, ghost line: Timeline, ghost d: Directory)
    returns (r: Option<(seq<Account>, Known)>)
    requires Distinct(ids)
    ensures r.Some? ==> Bijective(r.value.1) && r.value.1.names.Keys <= (set id | id in ids)
    ensures r.Some? && Honest(server, line) ==> AllSeen(r.value.1, ids, r.value.0, keys, line, clock)
    ensures Cooperative(server, keys, d) && OwnNames(d, keys, ids) ==> r.Some? && Agrees(r.value.1, ids, keys, d)
  {
    ghost var sure, helped := Honest(server, line), Cooperative(server, keys, d) && OwnNames(d, keys, ids);
    var accounts, known := [], Known(map[], map[], map[]);
    for j := 0 to |ids|
      invariant Bijective(known) && known.names.Keys <= (set id | id in ids[..j])
      invariant sure ==> AllSeen(known, ids[..j], accounts, keys, line, clock)
      invariant helped ==> Agrees(known, ids[..j], keys, d)
    {
      var id := ids[j];
      assert ids[..j + 1] == ids[..j] + [id] && id !in ids[..j];
      if helped { NameIsNew(known, ids, j, keys, d); }
      var read := ReadAccount(server, keys, clock + j, id, known, line, d);
      if read.None? { return None; }
      if sure { SeenAlso(known, read.value.1, ids[..j], id, accounts, read.value.0, keys, line, clock); }
      if helped { AgreesAlso(known, read.value.1, ids[..j], id, keys, d); }
      accounts, known := accounts + [read.value.0], read.value.1;
    }
    assert ids[..|ids|] == ids;
    return Some((accounts, known));
  }

  /** The account is as noted at that later instant too. */
  ghost predicate Confirmed(known: Known, id: Id, keys: Keys, d: Directory) {
    if id in known.versions
      then Has(d, PersonKind, id) && d[id].version == known.versions[id]
           && id in known.names && keys(d[id].name) == Some(known.names[id])
      else !Has(d, PersonKind, id)
  }

  ghost predicate AllConfirmed(known: Known, ids: seq<Id>, keys: Keys, line: Timeline, clock: nat) {
    forall j :: 0 <= j < |ids| ==> Confirmed(known, ids[j], keys, line.At(clock + j))
  }

  method VerifyAccounts(server: Server, keys: Keys, clock: nat, ids: seq<Id>, known: Known, ghost line: Timeline,
      ghost d: Directory)
    returns (ok: bool)
    requires known.names.Keys == known.versions.Keys
    ensures ok && Honest(server, line) ==> AllConfirmed(known, ids, keys, line, clock)
    ensures Cooperative(server, keys, d) && Agrees(known, ids, keys, d) ==> ok
  {
    ghost var sure, helped := Honest(server, line), Cooperative(server, keys, d) && Agrees(known, ids, keys, d);
    for j := 0 to |ids|
      invariant sure ==> forall i :: 0 <= i < j ==> Confirmed(known, ids[i], keys, line.At(clock + i))
    {
      var id := ids[j];
      var found := FindObject(server, keys, clock + j, PersonKind, id, false);
      if helped {
        FindIsServed(server, keys, clock + j, PersonKind, id, false, d);
        assert AgreesOn(known, ids[j], keys, d);
      }
      if found.None? { return false; }
      if sure { FindIsTrue(server, keys, clock + j, PersonKind, id, false, line); }
      if found.value.None? {
        if id in known.versions { return false; }
      } else {
        var entry := found.value.value;
        if id !in known.names || keys(entry.name) != Some(known.names[id])
          || entry.version != Some(known.versions[id]) { return false; }
      }
    }
    return true;
  }

  // ----- the groups

  datatype Membership = Membership(group: Id, present: bool, ids: set<Id>)

  /** The accounts that a member list names. */
  ghost function Resolved(byKey: map<nat, Id>, keys: Keys, members: seq<Name>): set<Id> {
    set m | m in members && keys(m).Some? && keys(m).value in byKey :: byKey[keys(m).value]
  }

  method ResolveMembers(byKey: map<nat, Id>, keys: Keys, members: seq<Name>) returns (r: Option<set<Id>>)
    ensures r.Some? <==> forall m :: m in members ==> keys(m).Some?
    ensures r.Some? ==> r.value == Resolved(byKey, keys, members)
  {
    var ids := {};
    for i := 0 to |members|
      invariant ids == Resolved(byKey, keys, members[..i])
      invariant forall m :: m in members[..i] ==> keys(m).Some?
    {
      assert members[..i + 1] == members[..i] + [members[i]];
      var key := keys(members[i]);
      if key.None? { return None; }
      if key.value in byKey { ids := ids + {byKey[key.value]}; }
    }
    assert members[..|members|] == members;
    return Some(ids);
  }

  ghost predicate MembershipAt(d: Directory, m: Membership, group: Id, byKey: map<nat, Id>, keys: Keys) {
    && m.group == group && (m.present <==> Has(d, GroupKind, group))
    && m.ids == if m.present then Resolved(byKey, keys, d[group].members) else {}
  }

  /** Each group is reported as it was at the instant of some search in the window. */
  ghost predicate AllGroupsSeen(groups: seq<Membership>, bindings: seq<Id>, byKey: map<nat, Id>, keys: Keys,
      line: Timeline, clock: nat, next: nat) {
    |groups| == |bindings| && forall g :: 0 <= g < |bindings| ==>
      SeenOnce(groups[g], bindings[g], byKey, keys, line, clock, next)
  }

  ghost predicate SeenOnce(m: Membership, group: Id, byKey: map<nat, Id>, keys: Keys, line: Timeline, clock: nat,
      next: nat) {
    exists k: nat :: clock <= k < next && MembershipAt(line.At(k), m, group, byKey, keys)
  }

  lemma SeenLonger(groups: seq<Membership>, bindings: seq<Id>, byKey: map<nat, Id>, keys: Keys, line: Timeline,
      clock: nat, before: nat, next: nat)
    requires AllGroupsSeen(groups, bindings, byKey, keys, line, clock, before) && before <= next
    ensures AllGroupsSeen(groups, bindings, byKey, keys, line, clock, next)
  {
    forall g | 0 <= g < |bindings| ensures SeenOnce(groups[g], bindings[g], byKey, keys, line, clock, next) {
      assert SeenOnce(groups[g], bindings[g], byKey, keys, line, clock, before);
    }
  }

  lemma SeenNext(groups: seq<Membership>, bindings: seq<Id>, g: nat, m: Membership, byKey: map<nat, Id>, keys: Keys,
      line: Timeline, clock: nat, before: nat, next: nat)
    requires g < |bindings| && AllGroupsSeen(groups, bindings[..g], byKey, keys, line, clock, before)
    requires clock <= before < next && MembershipAt(line.At(before), m, bindings[g], byKey, keys)
    ensures AllGroupsSeen(groups + [m], bindings[..g + 1], byKey, keys, line, clock, next)
  {
    SeenLonger(groups, bindings[..g], byKey, keys, line, clock, before, next);
    assert SeenOnce(m, bindings[g], byKey, keys, line, clock, next);
    forall i | 0 <= i < g + 1
      ensures SeenOnce((groups + [m])[i], bindings[..g + 1][i], byKey, keys, line, clock, next)
    {
      if i < g { assert SeenOnce(groups[i], bindings[..g][i], byKey, keys, line, clock, next); }
    }
  }

  /** How many members the groups list, and how many accounts they are reported to have. */
  ghost function Listed(d: Directory, groups: seq<Id>): nat {
    if groups == [] then 0 else
      var last := groups[|groups| - 1];
      Listed(d, groups[..|groups| - 1]) + if Has(d, GroupKind, last) then |d[last].members| else 0
  }

  ghost function ReportedTotal(groups: seq<Membership>): nat {
    if groups == [] then 0 else ReportedTotal(groups[..|groups| - 1]) + |groups[|groups| - 1].ids|
  }

  lemma {:induction false} ListedGrows(d: Directory, groups: seq<Id>, g: nat)
    requires g <= |groups|
    ensures Listed(d, groups[..g]) <= Listed(d, groups)
  {
    if g < |groups| {
      assert groups[..|groups| - 1][..g] == groups[..g];
      ListedGrows(d, groups[..|groups| - 1], g);
    } else {
      assert groups[..g] == groups;
    }
  }

  lemma ListedNext(d: Directory, groups: seq<Id>, g: nat)
    requires g < |groups|
    ensures Listed(d, groups[..g + 1]) ==
      Listed(d, groups[..g]) + if Has(d, GroupKind, groups[g]) then |d[groups[g]].members| else 0
    ensures Listed(d, groups[..g + 1]) <= Listed(d, groups)
  {
    assert groups[..g + 1][..g] == groups[..g];
    ListedGrows(d, groups, g + 1);
  }

  lemma {:induction false} ResolvedFits(byKey: map<nat, Id>, keys: Keys, members: seq<Name>)
    ensures |Resolved(byKey, keys, members)| <= |members|
  {
    if members != [] {
      var rest, last := members[..|members| - 1], members[|members| - 1];
      ResolvedFits(byKey, keys, rest);
      var all := Resolved(byKey, keys, rest)
        + if keys(last).Some? && keys(last).value in byKey then {byKey[keys(last).value]} else {};
      assert Resolved(byKey, keys, members) == all by { assert members == rest + [last]; }
    }
  }

  /** The groups are within the limit and name members by distinguished names. */
  ghost predicate Manageable(d: Directory, keys: Keys, bindings: seq<Id>) {
    && Listed(d, bindings) <= MAX_MEMBERS
    && forall g, m :: g in bindings && Has(d, GroupKind, g) && m in d[g].members ==> keys(m).Some?
  }

  method ReadGroups(server: Server, keys: Keys, clock: nat, bindings: seq<Id>, byKey: map<nat, Id>,
      ghost line: Timeline, ghost d: Directory)
    returns (r: Option<seq<Membership>>, next: nat)
    ensures clock <= next
    ensures r.Some? ==> ReportedTotal(r.value) <= MAX_MEMBERS
    ensures r.Some? && Honest(server, line) && Versioned(line.history) ==>
      AllGroupsSeen(r.value, bindings, byKey, keys, line, clock, next)
    ensures Cooperative(server, keys, d) && Manageable(d, keys, bindings) ==> r.Some?
  {
    ghost var sure := Honest(server, line) && Versioned(line.history);
    ghost var helped := Cooperative(server, keys, d) && Manageable(d, keys, bindings);
    var groups: seq<Membership> := [];
    var total := 0;
    next := clock;
    for g := 0 to |bindings|
      invariant clock <= next && |groups| == g && ReportedTotal(groups) <= total <= MAX_MEMBERS
      invariant sure ==> AllGroupsSeen(groups, bindings[..g], byKey, keys, line, clock, next)
      invariant helped ==> total == Listed(d, bindings[..g])
    {
      var before := next;
      var read;
      ListedNext(d, bindings, g);
      read, next := ReadGroup(server, keys, before, bindings[g], line, d);
      if read.None? { return None, next; }
      var (members, present) := read.value;
      total := total + |members|;
      if total > MAX_MEMBERS { return None, next; }
      var ids := ResolveMembers(byKey, keys, members);
      if ids.None? { return None, next; }
      var m := Membership(bindings[g], present, ids.value);
      if sure {
        assert GroupAt(line.At(before), bindings[g], members, present);
        GroupIsSeen(line.At(before), m, members, byKey, keys);
        SeenNext(groups, bindings, g, m, byKey, keys, line, clock, before, next);
      }
      ResolvedFits(byKey, keys, members);
      assert (groups + [m])[..g] == groups;
      groups := groups + [m];
    }
    assert bindings[..|bindings|] == bindings;
    return Some(groups), next;
  }

  lemma GroupIsSeen(d: Directory, m: Membership, members: seq<Name>, byKey: map<nat, Id>, keys: Keys)
    requires GroupAt(d, m.group, members, m.present) && m.ids == Resolved(byKey, keys, members)
    ensures MembershipAt(d, m, m.group, byKey, keys)
  {
    if !m.present { assert Resolved(byKey, keys, []) == {}; }
  }

  // ----- the snapshot

  datatype Snapshot = Snapshot(accounts: seq<Account>, groups: seq<Membership>)

  /** At that instant the group lists a name of the account. */
  ghost predicate MemberAt(d: Directory, keys: Keys, group: Id, id: Id) {
    && Has(d, GroupKind, group) && Has(d, PersonKind, id)
    && exists m :: m in d[group].members && keys(m).Some? && keys(m) == keys(d[id].name)
  }

  /** The account kept one name, version and eligibility at every instant from lo to hi. */
  ghost predicate Fixed(history: History, id: Id, lo: nat, hi: nat) {
    && Has(history(lo), PersonKind, id)
    && forall t :: lo <= t <= hi ==> id in history(t) && history(t)[id] == history(lo)[id]
  }

  /** The account is reported present exactly if the directory had it at the first pass, and exactly if it
      had it at the second; then it did not change in between. */
  ghost predicate Reported(account: Account, id: Id, line: Timeline, first: nat, second: nat) {
    && account.id == id
    && (account.present <==> Has(line.At(first), PersonKind, id))
    && (account.present <==> Has(line.At(second), PersonKind, id))
    && (account.present ==> Fixed(line.history, id, line.when(first), line.when(second))
                            && line.At(first)[id].enabled == account.enabled)
  }

  /** The group is reported as search k met it: exactly the configured accounts that it lists and that the
      directory had at their first pass. */
  ghost predicate Exact(m: Membership, group: Id, ids: seq<Id>, keys: Keys, line: Timeline, clock: nat, k: nat) {
    && m.group == group && (m.present <==> Has(line.At(k), GroupKind, group)) && m.ids <= (set id | id in ids)
    && forall j :: 0 <= j < |ids| ==>
         (ids[j] in m.ids <==> Has(line.At(clock + j), PersonKind, ids[j]) && MemberAt(line.At(k), keys, group, ids[j]))
  }

  ghost predicate ExactOnce(m: Membership, group: Id, ids: seq<Id>, keys: Keys, line: Timeline, clock: nat, next: nat) {
    exists k: nat :: clock + |ids| <= k < next && Exact(m, group, ids, keys, line, clock, k)
  }

  /** Accounts are looked up by the searches from clock on, groups by those after them, and accounts once
      more by those from next on. Every account is reported as both its passes met it, and every group as
      one of the searches between them met it. */
  ghost predicate Consistent(snapshot: Snapshot, ids: seq<Id>, bindings: seq<Id>, keys: Keys, line: Timeline,
      clock: nat, next: nat) {
    && |snapshot.groups| == |bindings| && clock + |ids| <= next
    && AllReported(snapshot.accounts, ids, line, clock, next)
    && (forall g :: 0 <= g < |bindings| ==> ExactOnce(snapshot.groups[g], bindings[g], ids, keys, line, clock, next))
  }

  /** Noted before and confirmed after. */
  lemma ConfirmedIsReported(known: Known, id: Id, account: Account, keys: Keys, line: Timeline, first: nat, second: nat)
    requires Versioned(line.history) && line.when(first) <= line.when(second)
    requires Seen(known, id, account, keys, line.At(first)) && Confirmed(known, id, keys, line.At(second))
    ensures Reported(account, id, line, first, second)
  {
    if account.present {
      var s, u := line.when(first), line.when(second);
      forall t | s <= t <= u ensures id in line.history(t) && line.history(t)[id] == line.history(s)[id] {
        assert Steady(line.history, id, s, t, u);
      }
    }
  }

  /** Resolving a member list through the noted names gives the accounts that the group lists. */
  lemma ResolvedIsMembers(known: Known, keys: Keys, d: Directory, group: Id, id: Id)
    requires Bijective(known) && Has(d, GroupKind, group)
    requires id in known.names ==> Has(d, PersonKind, id) && keys(d[id].name) == Some(known.names[id])
    ensures id in Resolved(known.byKey, keys, d[group].members) <==> id in known.names && MemberAt(d, keys, group, id)
  {
    var members := d[group].members;
    if id in Resolved(known.byKey, keys, members) {
      var m :| m in members && keys(m).Some? && keys(m).value in known.byKey && known.byKey[keys(m).value] == id;
      assert keys(m) == keys(d[id].name);
    }
    if id in known.names && MemberAt(d, keys, group, id) {
      var m :| m in members && keys(m).Some? && keys(m) == keys(d[id].name);
      assert known.byKey[keys(m).value] == id;
    }
  }

  /** What a found account's two passes say about search k between them. */
  ghost predicate PinnedAt(known: Known, id: Id, keys: Keys, d: Directory) {
    id in known.names ==> Has(d, PersonKind, id) && keys(d[id].name) == Some(known.names[id])
  }

  lemma AccountIsPinned(known: Known, id: Id, account: Account, keys: Keys, line: Timeline, first: nat, k: nat,
      second: nat)
    requires Seen(known, id, account, keys, line.At(first)) && Reported(account, id, line, first, second)
    requires line.when(first) <= line.when(k) <= line.when(second) && known.names.Keys == known.versions.Keys
    ensures PinnedAt(known, id, keys, line.At(k)) && (id in known.names <==> Has(line.At(first), PersonKind, id))
  {
  }

  ghost predicate AllReported(accounts: seq<Account>, ids: seq<Id>, line: Timeline, clock: nat, next: nat) {
    |accounts| == |ids| && forall j :: 0 <= j < |ids| ==> Reported(accounts[j], ids[j], line, clock + j, next + j)
  }

  lemma AccountsArePinned(ids: seq<Id>, accounts: seq<Account>, known: Known, keys: Keys,
                          line: Timeline, clock: nat, k: nat, next: nat, j: nat)
    requires (forall i: nat, j: nat :: InOrder(line, i, j)) && clock + |ids| <= k <= next && j < |ids|
    requires AllSeen(known, ids, accounts, keys, line, clock) && known.names.Keys == known.versions.Keys
    requires AllReported(accounts, ids, line, clock, next)
    ensures PinnedAt(known, ids[j], keys, line.At(k))
    ensures (ids[j] in known.names <==> Has(line.At(clock + j), PersonKind, ids[j]))
  {
    assert InOrder(line, clock + j, k) && InOrder(line, k, next + j);
    AccountIsPinned(known, ids[j], accounts[j], keys, line, clock + j, k, next + j);
  }

  lemma GroupIsExact(m: Membership, group: Id, ids: seq<Id>, known: Known, keys: Keys, line: Timeline, clock: nat,
      k: nat)
    requires Bijective(known) && known.names.Keys <= (set id | id in ids)
    requires forall j :: 0 <= j < |ids| ==> PinnedAt(known, ids[j], keys, line.At(k))
    requires forall j :: 0 <= j < |ids| ==> (ids[j] in known.names <==> Has(line.At(clock + j), PersonKind, ids[j]))
    requires MembershipAt(line.At(k), m, group, known.byKey, keys)
    ensures Exact(m, group, ids, keys, line, clock, k)
  {
    if m.present {
      forall j | 0 <= j < |ids|
        ensures ids[j] in m.ids <==> ids[j] in known.names && MemberAt(line.At(k), keys, group, ids[j])
      {
        ResolvedIsMembers(known, keys, line.At(k), group, ids[j]);
      }
      assert m.ids <= known.names.Keys;
    }
  }

  lemma AccountsAreReported(ids: seq<Id>, accounts: seq<Account>, known: Known, keys: Keys, line: Timeline, clock: nat,
      next: nat)
    requires (forall i: nat, j: nat :: InOrder(line, i, j)) && Versioned(line.history) && clock <= next
    requires AllSeen(known, ids, accounts, keys, line, clock) && AllConfirmed(known, ids, keys, line, next)
    ensures AllReported(accounts, ids, line, clock, next)
  {
    forall j | 0 <= j < |ids| ensures Reported(accounts[j], ids[j], line, clock + j, next + j) {
      assert InOrder(line, clock + j, next + j);
      assert Seen(known, ids[j], accounts[j], keys, line.At(clock + j));
      assert Confirmed(known, ids[j], keys, line.At(next + j));
      ConfirmedIsReported(known, ids[j], accounts[j], keys, line, clock + j, next + j);
    }
  }

  lemma GroupIsExactOnce(m: Membership, group: Id, ids: seq<Id>, accounts: seq<Account>, known: Known, keys: Keys,
                         line: Timeline, clock: nat, next: nat)
    requires (forall i: nat, j: nat :: InOrder(line, i, j)) && clock + |ids| <= next
    requires Bijective(known) && known.names.Keys <= (set id | id in ids)
    requires AllSeen(known, ids, accounts, keys, line, clock) && AllReported(accounts, ids, line, clock, next)
    requires SeenOnce(m, group, known.byKey, keys, line, clock + |ids|, next)
    ensures ExactOnce(m, group, ids, keys, line, clock, next)
  {
    var k: nat :| clock + |ids| <= k < next && MembershipAt(line.At(k), m, group, known.byKey, keys);
    forall j | 0 <= j < |ids|
      ensures PinnedAt(known, ids[j], keys, line.At(k))
      ensures (ids[j] in known.names <==> Has(line.At(clock + j), PersonKind, ids[j]))
    {
      AccountsArePinned(ids, accounts, known, keys, line, clock, k, next, j);
    }
    GroupIsExact(m, group, ids, known, keys, line, clock, k);
  }

  /** The three passes together. */
  lemma SnapshotIsConsistent(snapshot: Snapshot, ids: seq<Id>, bindings: seq<Id>, known: Known, keys: Keys,
                             server: Server, line: Timeline, clock: nat, next: nat)
    requires Honest(server, line) && Versioned(line.history) && clock + |ids| <= next
    requires Bijective(known) && known.names.Keys <= (set id | id in ids)
    requires AllSeen(known, ids, snapshot.accounts, keys, line, clock)
    requires AllGroupsSeen(snapshot.groups, bindings, known.byKey, keys, line, clock + |ids|, next)
    requires AllConfirmed(known, ids, keys, line, next)
    ensures Consistent(snapshot, ids, bindings, keys, line, clock, next)
  {
    AccountsAreReported(ids, snapshot.accounts, known, keys, line, clock, next);
    forall g | 0 <= g < |bindings| ensures ExactOnce(snapshot.groups[g], bindings[g], ids, keys, line, clock, next) {
      assert SeenOnce(snapshot.groups[g], bindings[g], known.byKey, keys, line, clock + |ids|, next);
      GroupIsExactOnce(snapshot.groups[g], bindings[g], ids, snapshot.accounts, known, keys, line, clock, next);
    }
  }

  /** Accounts, groups, accounts again: an accepted snapshot is consistent. A directory d that keeps still
      and answers everything has its snapshot accepted, unless its groups are too large or name members by
      something else, or two of its accounts share a name. */
  method ReadSnapshot(server: Server, keys: Keys, clock: nat, ids: seq<Id>, bindings: seq<Id>, ghost line: Timeline,
      ghost d: Directory)
    returns (r: Option<Snapshot>, next: nat)
    requires Distinct(ids)
    ensures r.Some? && Honest(server, line) && Versioned(line.history) ==>
      Consistent(r.value, ids, bindings, keys, line, clock, next)
    ensures r.Some? ==> ReportedTotal(r.value.groups) <= MAX_MEMBERS
    ensures Cooperative(server, keys, d) && OwnNames(d, keys, ids) && Manageable(d, keys, bindings) ==> r.Some?
  {
    next := clock;
    var first := ReadAccounts(server, keys, clock, ids, line, d);
    if first.None? { return None, next; }
    var (accounts, known) := first.value;
    var groups;
    groups, next := ReadGroups(server, keys, clock + |ids|, bindings, known.byKey, line, d);
    if groups.None? { return None, next; }
    var snapshot := Snapshot(accounts, groups.value);
    var ok := VerifyAccounts(server, keys, next, ids, known, line, d);
    if !ok { return None, next; }
    if Honest(server, line) && Versioned(line.history) {
      SnapshotIsConsistent(snapshot, ids, bindings, known, keys, server, line, clock, next);
    }
    return Some(snapshot), next;
  }

  // ----- what that means for an account

  ghost predicate ThereThroughout(line: Timeline, id: Id, from: nat, to: nat) {
    forall t :: line.when(from) <= t <= line.when(to) ==> Has(line.history(t), PersonKind, id)
  }

  /** Accounts that exist throughout the read are members exactly if the group lists them at its instant:
      each group has one instant that is right for all of them. */
  lemma MembersThroughout(snapshot: Snapshot, ids: seq<Id>, bindings: seq<Id>, keys: Keys, line: Timeline, clock: nat,
      next: nat, g: nat)
    requires Consistent(snapshot, ids, bindings, keys, line, clock, next) && g < |bindings|
    requires forall i: nat, j: nat :: InOrder(line, i, j)
    ensures exists k: nat :: clock + |ids| <= k < next && forall j ::
      0 <= j < |ids| && ThereThroughout(line, ids[j], clock, next + |ids|) ==>
        (ids[j] in snapshot.groups[g].ids <==> MemberAt(line.At(k), keys, bindings[g], ids[j]))
  {
    assert ExactOnce(snapshot.groups[g], bindings[g], ids, keys, line, clock, next);
    var k: nat :| clock + |ids| <= k < next && Exact(snapshot.groups[g], bindings[g], ids, keys, line, clock, k);
    forall j | 0 <= j < |ids| && ThereThroughout(line, ids[j], clock, next + |ids|)
      ensures ids[j] in snapshot.groups[g].ids <==> MemberAt(line.At(k), keys, bindings[g], ids[j])
    {
      assert InOrder(line, clock, clock + j) && InOrder(line, clock + j, next + |ids|);
    }
  }

  /** An account that exists only between the passes is left out although the group lists it: here it
      exists at the middle one of three instants, at which the group is read. */
  lemma MissedBetween() returns (line: Timeline, keys: Keys)
    ensures (forall i: nat, j: nat :: InOrder(line, i, j)) && Versioned(line.history)
    ensures forall k: nat :: 1 <= k < 3 ==> MemberAt(line.At(k), keys, "group", "person")
    ensures Consistent(Snapshot([Account("person", false, false)], [Membership("group", true, {})]), ["person"],
      ["group"], keys, line, 0, 3)
    ensures forall s :: Consistent(s, ["person"], ["group"], keys, line, 0, 3) ==> s.groups[0].ids == {}
  {
    var group, person := Group(10, 1, [20]), Person(20, 1, true);
    keys := n => Some(n);
    line := Timeline(t => if t == 1 then map["group" := group, "person" := person] else map["group" := group],
                     k => if k == 0 then 0 else if k <= 2 then 1 else 2);
    forall k: nat | 1 <= k < 3 ensures MemberAt(line.At(k), keys, "group", "person") {
      assert 20 in group.members && keys(20) == keys(person.name);
    }
    var ids := ["person"];
    assert Exact(Membership("group", true, {}), "group", ids, keys, line, 0, 1);
    forall s | Consistent(s, ids, ["group"], keys, line, 0, 3) ensures s.groups[0].ids == {} {
      assert ExactOnce(s.groups[0], "group", ids, keys, line, 0, 3);
      var k: nat :| 1 <= k < 3 && Exact(s.groups[0], "group", ids, keys, line, 0, k);
      assert ids[0] !in s.groups[0].ids;
    }
  }
}
