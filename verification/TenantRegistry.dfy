/**
The tenant registry: every `levee tenant` command loads the whole file into a manager, changes
the manager, and writes all tenants back in the order of a Go map, that is in any order.

A Book is the manager's three maps as a value. The main results say that the live tenants of
the file behave like a plain map under every sequence of commands, and exactly when a load
drops a record of a deleted tenant.
*/
module TenantRegistry {
  import opened Wrappers
  import opened Text

  datatype Status = Active | Suspended | Deleted

  /** Zero means unlimited. */
  datatype Quota = Quota(targets: int, changes: int, storage: int, apiRate: int)

  /** The fields no command after Create touches. */
  datatype Info = Info(display: string, created: int, labels: map<string, string>)

  datatype Tenant = Tenant(
    id: string, name: string, namespace: string, status: Status, reason: string, updated: int, info: Info)

  /** One entry of the file, the YAML codec taken as the identity. `status` is what
      ParseStatus makes of the status word; ParseStatusName says that written words come back. */
  datatype Record = Record(
    id: string, name: string, namespace: string, status: Option<Status>, reason: string, updated: int,
    info: Info, quota: Quota)

  datatype Book = Book(tenants: map<string, Tenant>, byName: map<string, string>, quotas: map<string, Quota>)

  const EMPTY := Book(map[], map[], map[])
  const UNLIMITED := Quota(0, 0, 0, 0)

  // ----- validation and status names

  function StatusName(s: Status): string {
    match s case Active => "active" case Suspended => "suspended" case Deleted => "deleted"
  }

  function ParseStatus(s: string): Option<Status> {
    var t := Lower(Trim(s));
    if t == "active" then Some(Active)
    else if t == "suspended" then Some(Suspended)
    else if t == "deleted" then Some(Deleted)
    else None
  }

  lemma ParseStatusName(s: Status)
    ensures ParseStatus(StatusName(s)) == Some(s)
  {
    TrimIsTrimmed(StatusName(s));
    assert Lower(StatusName(s)) == StatusName(s);
  }

  /** Status words are read in any case and with white space around them. */
  lemma ParseStatusExactly(s: string, st: Status)
    ensures ParseStatus(s) == Some(st) <==>
            Lower(Trim(s)) == (match st case Active => "active" case Suspended => "suspended" case Deleted => "deleted")
  {
  }

  predicate NameEnd(c: char) {
    'a' <= c <= 'z' || '0' <= c <= '9'
  }

  /** ^[a-z0-9][a-z0-9-]{1,62}[a-z0-9]$ */
  predicate ValidName(s: string) {
    && 3 <= |s| <= 64 && NameEnd(s[0]) && NameEnd(s[|s| - 1])
    && forall i | 0 <= i < |s| :: NameEnd(s[i]) || s[i] == '-'
  }

  function NamespaceFor(name: string): string {
    "tenant-" + name
  }

  predicate ValidTenant(t: Tenant) {
    t.id != "" && ValidName(t.name) && t.namespace == NamespaceFor(t.name)
  }

  predicate ValidQuota(q: Quota) {
    q.targets >= 0 && q.changes >= 0 && q.storage >= 0 && q.apiRate >= 0
  }

  // ----- the manager's operations on a Book; None is a refusal

  /** TenantManager.Restore. */
  function RestoreIn(b: Book, t: Tenant, q: Quota): Option<Book> {
    if !ValidTenant(t) || t.id in b.tenants then None
    else if t.name in b.byName && b.byName[t.name] != t.id && b.byName[t.name] in b.tenants
            && b.tenants[b.byName[t.name]].status != Deleted then None
    else if !ValidQuota(q) then None
    else Some(Book(b.tenants[t.id := t],
                   if t.status != Deleted then b.byName[t.name := t.id] else b.byName,
                   b.quotas[t.id := q]))
  }

  datatype QuotaPatch = QuotaPatch(
    targets: Option<int>, changes: Option<int>, storage: Option<int>, apiRate: Option<int>)

  function Or(o: Option<int>, x: int): int {
    if o.Some? then o.value else x
  }

  function Patch(q: Quota, p: QuotaPatch): Quota {
    Quota(Or(p.targets, q.targets), Or(p.changes, q.changes), Or(p.storage, q.storage), Or(p.apiRate, q.apiRate))
  }

  /** The commands; `id` of Create is the minted identifier, `now` the clock. */
  datatype Command =
    | Create(name: string, display: string, quota: Quota, id: string, now: int)
    | Suspend(id: string, reason: string, now: int)
    | Resume(id: string, now: int)
    | Delete(id: string, now: int)
    | SetQuota(id: string, patch: QuotaPatch)

  function NewTenant(id: string, name: string, display: string, now: int): Tenant {
    Tenant(id, name, NamespaceFor(name), Active, "", now, Info(display, now, map[]))
  }

  function QuotaOf(b: Book, id: string): Quota {
    if id in b.quotas then b.quotas[id] else UNLIMITED
  }

  predicate IsLive(b: Book, id: string) {
    id in b.tenants && b.tenants[id].status != Deleted
  }

  function CreateIn(b: Book, t: Tenant, q: Quota): Option<Book> {
    if !ValidTenant(t) || t.name in b.byName || !ValidQuota(q) then None
    else Some(Book(b.tenants[t.id := t], b.byName[t.name := t.id], b.quotas[t.id := q]))
  }

  /** A suspended tenant keeps its reason unless a new one is given. */
  function Suspending(t: Tenant, reason: string, now: int): Tenant {
    if t.status == Suspended && (reason == "" || reason == t.reason) then t
    else t.(status := Suspended, reason := reason, updated := now)
  }

  function Resuming(t: Tenant, now: int): Tenant {
    if t.status == Active then t else t.(status := Active, reason := "", updated := now)
  }

  function Replace(b: Book, id: string, t: Tenant): Option<Book> {
    if !IsLive(b, id) then None else Some(b.(tenants := b.tenants[id := t]))
  }

  function DeleteIn(b: Book, id: string, now: int): Option<Book> {
    if id !in b.tenants then None
    else if b.tenants[id].status == Deleted then Some(b)
    else Some(Book(b.tenants[id := b.tenants[id].(status := Deleted, updated := now)],
                   b.byName - {b.tenants[id].name}, b.quotas - {id}))
  }

  function SetQuotaIn(b: Book, id: string, patch: QuotaPatch): Option<Book> {
    var q := Patch(QuotaOf(b, id), patch);
    if !IsLive(b, id) || !ValidQuota(q) then None else Some(b.(quotas := b.quotas[id := q]))
  }

  /** TenantManager.Create, Suspend, Resume, Delete and UpdateQuota as the runners call them. */
  function Apply(b: Book, c: Command): Option<Book> {
    match c
    case Create(name, display, quota, id, now) => CreateIn(b, NewTenant(id, name, display, now), quota)
    case Suspend(id, reason, now) =>
      if id !in b.tenants then None else Replace(b, id, Suspending(b.tenants[id], reason, now))
    case Resume(id, now) => if id !in b.tenants then None else Replace(b, id, Resuming(b.tenants[id], now))
    case Delete(id, now) => DeleteIn(b, id, now)
    case SetQuota(id, patch) => SetQuotaIn(b, id, patch)
  }

  /** What every manager in use satisfies. */
  ghost predicate BookInv(b: Book) {
    && (forall id | id in b.tenants :: b.tenants[id].id == id && ValidTenant(b.tenants[id]))
    && (forall id | id in b.tenants && b.tenants[id].status != Deleted ::
          b.tenants[id].name in b.byName && b.byName[b.tenants[id].name] == id && id in b.quotas)
    && (forall n | n in b.byName ::
          && b.byName[n] in b.tenants && b.tenants[b.byName[n]].name == n
          && b.tenants[b.byName[n]].status != Deleted)
    && (forall id | id in b.quotas :: id in b.tenants && ValidQuota(b.quotas[id]))
  }

  // ----- load and save

  function TenantOf(r: Record): Tenant
    requires r.status.Some?
  {
    Tenant(r.id, r.name, if r.namespace == "" then NamespaceFor(r.name) else r.namespace,
           r.status.value, r.reason, r.updated, r.info)
  }

  function RecordOf(b: Book, id: string): Record
    requires id in b.tenants
  {
    var t := b.tenants[id];
    Record(t.id, t.name, t.namespace, Some(t.status), t.reason, t.updated, t.info, QuotaOf(b, id))
  }

  /** One turn of registryToManager's loop: a record that cannot be restored is skipped. */
  function AddRecord(b: Book, r: Record): Book
    requires r.status.Some?
  {
    var restored := RestoreIn(b, TenantOf(r), r.quota);
    if restored.Some? then restored.value else b
  }

  /** registryToManager: an unknown status word fails the whole load. */
  function Load(recs: seq<Record>): Option<Book> {
    if recs == [] then Some(EMPTY)
    else
      var before, r := Load(recs[..|recs| - 1]), recs[|recs| - 1];
      if before.None? || r.status.None? then None else Some(AddRecord(before.value, r))
  }

  ghost predicate HasRecord(recs: seq<Record>, id: string) {
    exists i {:trigger recs[i]} | 0 <= i < |recs| :: recs[i].id == id
  }

  /** The records of the given tenants, each once, in any order. */
  ghost predicate Lists(b: Book, ids: set<string>, recs: seq<Record>) {
    && (forall i, j | 0 <= i < j < |recs| :: recs[i].id != recs[j].id)
    && (forall i | 0 <= i < |recs| ::
          recs[i].id in ids && recs[i].id in b.tenants && recs[i] == RecordOf(b, recs[i].id))
    && (forall id | id in ids :: HasRecord(recs, id))
  }

  /** managerToRegistry: every tenant once, in any order. */
  ghost predicate IsSave(b: Book, recs: seq<Record>) {
    Lists(b, b.tenants.Keys, recs)
  }

  predicate IsDead(r: Record) {
    r.status == Some(Deleted)
  }

  ghost predicate GoodFile(recs: seq<Record>) {
    && (forall i | 0 <= i < |recs| ::
          recs[i].status.Some? && ValidTenant(TenantOf(recs[i])) && ValidQuota(recs[i].quota))
    && (forall i, j | 0 <= i < j < |recs| ::
          && recs[i].id != recs[j].id
          && (!IsDead(recs[i]) && !IsDead(recs[j]) ==> recs[i].name != recs[j].name))
  }

  /** A deleted tenant's record behind a live one of the same name. */
  ghost predicate Shadowed(recs: seq<Record>, i: nat)
    requires i < |recs|
  {
    IsDead(recs[i]) && exists j | 0 <= j < i :: !IsDead(recs[j]) && recs[j].name == recs[i].name
  }

  /** Record i is in the manager, as it was written, unless it is shadowed. */
  ghost predicate RecordLoaded(recs: seq<Record>, b: Book, i: nat)
    requires i < |recs|
  {
    var r := recs[i];
    && r.status.Some?
    && (r.id in b.tenants <==> !Shadowed(recs, i))
    && (r.id in b.tenants ==> r.id in b.quotas && b.tenants[r.id] == TenantOf(r) && b.quotas[r.id] == r.quota)
  }

  /** The manager holds exactly the records that are not shadowed. */
  ghost predicate LoadedAs(recs: seq<Record>, b: Book) {
    && (forall i | 0 <= i < |recs| :: RecordLoaded(recs, b, i))
    && (forall id | id in b.tenants :: HasRecord(recs, id))
  }

  lemma GoodPrefix(recs: seq<Record>, n: nat)
    requires GoodFile(recs) && n <= |recs|
    ensures GoodFile(recs[..n])
  {
  }

  lemma ShadowedPrefix(recs: seq<Record>, n: nat, i: nat)
    requires i < n <= |recs|
    ensures Shadowed(recs[..n], i) <==> Shadowed(recs, i)
  {
    assert forall j | 0 <= j < n :: recs[..n][j] == recs[j];
  }

  /** A name is held by the manager exactly when a live record claims it. */
  lemma NameHeld(recs: seq<Record>, b: Book, name: string)
    requires BookInv(b) && LoadedAs(recs, b)
    ensures name in b.byName <==> exists j | 0 <= j < |recs| :: !IsDead(recs[j]) && recs[j].name == name
  {
    if j :| 0 <= j < |recs| && !IsDead(recs[j]) && recs[j].name == name {
      assert RecordLoaded(recs, b, j) && !Shadowed(recs, j);
      assert b.tenants[recs[j].id].name in b.byName;
    }
    if name in b.byName {
      var id := b.byName[name];
      assert HasRecord(recs, id);
      var j :| 0 <= j < |recs| && recs[j].id == id;
      assert RecordLoaded(recs, b, j);
      assert !IsDead(recs[j]) && recs[j].name == name;
    }
  }

  lemma RestoreKeepsInv(b: Book, t: Tenant, q: Quota)
    requires BookInv(b) && RestoreIn(b, t, q).Some?
    requires t.status != Deleted ==> t.name !in b.byName
    ensures BookInv(RestoreIn(b, t, q).value)
  {
  }

  /** The next record is restored unless it is shadowed. */
  lemma RestoredUnlessShadowed(recs: seq<Record>, n: nat, b: Book)
    requires GoodFile(recs) && |recs| == n + 1 && BookInv(b) && LoadedAs(recs[..n], b)
    ensures recs[n].id !in b.tenants
    ensures RestoreIn(b, TenantOf(recs[n]), recs[n].quota).Some? <==> !Shadowed(recs, n)
    ensures !IsDead(recs[n]) ==> recs[n].name !in b.byName
  {
    NameHeld(recs[..n], b, recs[n].name);
    assert recs[n].name in b.byName <==> exists j | 0 <= j < n :: !IsDead(recs[j]) && recs[j].name == recs[n].name by {
      assert forall j | 0 <= j < n :: recs[..n][j] == recs[j];
    }
  }

  lemma RecordsAfter(recs: seq<Record>, n: nat, b: Book, b': Book)
    requires |recs| == n + 1 && recs[n].status.Some? && LoadedAs(recs[..n], b)
    requires forall i | 0 <= i < n :: recs[i].id != recs[n].id
    requires recs[n].id !in b.tenants
    requires if Shadowed(recs, n) then b' == b
             else b'.tenants == b.tenants[recs[n].id := TenantOf(recs[n])]
                  && b'.quotas == b.quotas[recs[n].id := recs[n].quota]
    ensures LoadedAs(recs, b')
  {
    forall i | 0 <= i < |recs| ensures RecordLoaded(recs, b', i) {
      if i < n {
        ShadowedPrefix(recs, n, i);
        assert RecordLoaded(recs[..n], b, i) && recs[..n][i] == recs[i];
      }
    }
    forall id | id in b'.tenants ensures HasRecord(recs, id) {
      if id in b.tenants {
        assert HasRecord(recs[..n], id);
        var i :| 0 <= i < n && recs[..n][i].id == id;
        assert recs[i].id == id;
      } else {
        assert recs[n].id == id;
      }
    }
  }

  lemma LoadEmpty()
    ensures BookInv(EMPTY) && LoadedAs([], EMPTY)
  {
  }

  lemma LoadUnfolds(recs: seq<Record>, n: nat)
    requires |recs| == n + 1 && Load(recs[..n]).Some? && recs[n].status.Some?
    ensures Load(recs) == Some(AddRecord(Load(recs[..n]).value, recs[n]))
  {
  }

  /** What a load of a good file gives: every record that is not shadowed, as written. */
  lemma {:induction false} LoadMeaning(recs: seq<Record>)
    requires GoodFile(recs)
    ensures Load(recs).Some? && BookInv(Load(recs).value) && LoadedAs(recs, Load(recs).value)
    decreases |recs|
  {
    if recs == [] {
      LoadEmpty();
    } else {
      var n := |recs| - 1;
      GoodPrefix(recs, n);
      var init := recs[..n];
      LoadMeaning(init);
      LoadNext(recs, n, Load(init).value);
      LoadUnfolds(recs, n);
    }
  }

  /** Whatever file was loaded, the manager is in order: what does not fit was skipped. */
  lemma {:induction false} LoadInv(recs: seq<Record>)
    ensures Load(recs).Some? ==> BookInv(Load(recs).value)
    decreases |recs|
  {
    if recs == [] {
      LoadEmpty();
    } else if Load(recs).Some? {
      var n := |recs| - 1;
      LoadInv(recs[..n]);
      AddKeepsInv(Load(recs[..n]).value, recs[n]);
    }
  }

  lemma AddKeepsInv(b: Book, r: Record)
    requires BookInv(b) && r.status.Some?
    ensures BookInv(AddRecord(b, r))
  {
    if RestoreIn(b, TenantOf(r), r.quota).Some? {
      RestoreKeepsInv(b, TenantOf(r), r.quota);
    }
  }

  lemma LoadNext(recs: seq<Record>, n: nat, b: Book)
    requires GoodFile(recs) && |recs| == n + 1 && BookInv(b) && LoadedAs(recs[..n], b)
    ensures BookInv(AddRecord(b, recs[n])) && LoadedAs(recs, AddRecord(b, recs[n]))
  {
    RestoredUnlessShadowed(recs, n, b);
    if RestoreIn(b, TenantOf(recs[n]), recs[n].quota).Some? {
      RestoreKeepsInv(b, TenantOf(recs[n]), recs[n].quota);
    }
    RecordsAfter(recs, n, b, AddRecord(b, recs[n]));
  }

  // ----- the live tenants as a plain map

  datatype Entry = Entry(tenant: Tenant, quota: Quota)

  type Live = map<string, Entry>

  type Tenants = map<string, Tenant>

  /** What EntryAt says of an identifier that is not live; no LiveOf map holds it. */
  const NOBODY := Entry(Tenant("", "", "", Deleted, "", 0, Info("", 0, map[])), UNLIMITED)

  function EntryAt(b: Book, id: string): Entry {
    if IsLive(b, id) then Entry(b.tenants[id], QuotaOf(b, id)) else NOBODY
  }

  function LiveOf(b: Book): Live {
    map id | id in b.tenants && IsLive(b, id) :: EntryAt(b, id)
  }

  /** What each command should do to the live tenants. */
  function Spec(live: Live, c: Command): Live {
    match c
    case Create(name, display, quota, id, now) => SpecCreate(live, NewTenant(id, name, display, now), quota)
    case Suspend(id, reason, now) =>
      if id !in live then live
      else live[id := live[id].(tenant := Suspending(live[id].tenant, reason, now))]
    case Resume(id, now) =>
      if id !in live then live else live[id := live[id].(tenant := Resuming(live[id].tenant, now))]
    case Delete(id, _) => live - {id}
    case SetQuota(id, patch) =>
      if id in live && ValidQuota(Patch(live[id].quota, patch))
      then live[id := live[id].(quota := Patch(live[id].quota, patch))] else live
  }

  function SpecCreate(live: Live, t: Tenant, q: Quota): Live {
    if ValidTenant(t) && ValidQuota(q) && (forall x | x in live :: live[x].tenant.name != t.name)
    then live[t.id := Entry(t, q)] else live
  }

  lemma NameInUse(b: Book, name: string)
    requires BookInv(b)
    ensures name in b.byName <==> exists x :: x in LiveOf(b) && LiveOf(b)[x].tenant.name == name
  {
    if name in b.byName {
      assert LiveOf(b)[b.byName[name]].tenant.name == name;
    }
  }

  lemma CreateLive(b: Book, t: Tenant, q: Quota)
    requires t.id !in b.tenants && t.status == Active && CreateIn(b, t, q).Some?
    ensures LiveOf(CreateIn(b, t, q).value) == LiveOf(b)[t.id := Entry(t, q)]
  {
  }

  lemma CreateRefines(b: Book, t: Tenant, q: Quota)
    requires BookInv(b) && t.id !in b.tenants && t.status == Active
    ensures CreateIn(b, t, q).None? ==> SpecCreate(LiveOf(b), t, q) == LiveOf(b)
    ensures CreateIn(b, t, q).Some? ==>
              BookInv(CreateIn(b, t, q).value) && LiveOf(CreateIn(b, t, q).value) == SpecCreate(LiveOf(b), t, q)
  {
    NameInUse(b, t.name);
    if CreateIn(b, t, q).Some? {
      RestoreKeepsInv(b, t, q);
      CreateLive(b, t, q);
    }
  }

  /** Replacing a live tenant by another live state of itself. */
  lemma ReplaceKeeps(b: Book, id: string, t: Tenant)
    requires BookInv(b) && IsLive(b, id)
    requires t.id == id && t.name == b.tenants[id].name && t.namespace == b.tenants[id].namespace
    requires t.status != Deleted
    ensures BookInv(b.(tenants := b.tenants[id := t]))
  {
  }

  lemma ReplaceLive(b: Book, id: string, t: Tenant)
    requires IsLive(b, id) && t.status != Deleted
    ensures LiveOf(b.(tenants := b.tenants[id := t])) == LiveOf(b)[id := Entry(t, QuotaOf(b, id))]
  {
  }

  lemma DeleteKeeps(b: Book, id: string, now: int)
    requires BookInv(b) && IsLive(b, id)
    ensures BookInv(DeleteIn(b, id, now).value)
  {
  }

  lemma DeleteLive(b: Book, id: string, now: int)
    requires IsLive(b, id)
    ensures LiveOf(DeleteIn(b, id, now).value) == LiveOf(b) - {id}
  {
  }

  lemma SetQuotaLive(b: Book, id: string, q: Quota)
    requires IsLive(b, id)
    ensures LiveOf(b.(quotas := b.quotas[id := q])) == LiveOf(b)[id := Entry(b.tenants[id], q)]
  {
  }

  lemma ReplaceRefines(b: Book, id: string, t: Tenant)
    requires BookInv(b) && id in b.tenants
    requires t.id == id && t.name == b.tenants[id].name && t.namespace == b.tenants[id].namespace
    requires t.status != Deleted
    ensures Replace(b, id, t).None? <==> id !in LiveOf(b)
    ensures Replace(b, id, t).Some? ==>
              && BookInv(Replace(b, id, t).value)
              && LiveOf(Replace(b, id, t).value) == LiveOf(b)[id := LiveOf(b)[id].(tenant := t)]
  {
    if IsLive(b, id) {
      ReplaceKeeps(b, id, t);
      ReplaceLive(b, id, t);
    }
  }

  lemma DeleteRefines(b: Book, id: string, now: int)
    requires BookInv(b)
    ensures DeleteIn(b, id, now).None? ==> LiveOf(b) - {id} == LiveOf(b)
    ensures DeleteIn(b, id, now).Some? ==>
              BookInv(DeleteIn(b, id, now).value) && LiveOf(DeleteIn(b, id, now).value) == LiveOf(b) - {id}
  {
    if IsLive(b, id) {
      DeleteKeeps(b, id, now);
      DeleteLive(b, id, now);
    } else {
      assert LiveOf(b) - {id} == LiveOf(b);
    }
  }

  lemma SetQuotaRefines(b: Book, id: string, patch: QuotaPatch)
    requires BookInv(b)
    ensures SetQuotaIn(b, id, patch).None? ==> Spec(LiveOf(b), SetQuota(id, patch)) == LiveOf(b)
    ensures SetQuotaIn(b, id, patch).Some? ==>
              && BookInv(SetQuotaIn(b, id, patch).value)
              && LiveOf(SetQuotaIn(b, id, patch).value) == Spec(LiveOf(b), SetQuota(id, patch))
  {
    if IsLive(b, id) {
      SetQuotaLive(b, id, Patch(QuotaOf(b, id), patch));
    }
  }

  /** One command keeps the manager's invariant and does to the live tenants what Spec says. */
  lemma ApplyRefines(b: Book, c: Command)
    requires BookInv(b) && (c.Create? ==> c.id !in b.tenants)
    ensures Apply(b, c).None? ==> Spec(LiveOf(b), c) == LiveOf(b)
    ensures Apply(b, c).Some? ==> BookInv(Apply(b, c).value) && LiveOf(Apply(b, c).value) == Spec(LiveOf(b), c)
  {
    match c
    case Create(name, display, quota, id, now) => CreateRefines(b, NewTenant(id, name, display, now), quota);
    case Suspend(id, reason, now) =>
      if IsLive(b, id) {
        ReplaceRefines(b, id, Suspending(b.tenants[id], reason, now));
      }
    case Resume(id, now) =>
      if IsLive(b, id) {
        ReplaceRefines(b, id, Resuming(b.tenants[id], now));
      }
    case Delete(id, now) => DeleteRefines(b, id, now);
    case SetQuota(id, patch) => SetQuotaRefines(b, id, patch);
  }

  lemma RecordRoundTrip(b: Book, id: string)
    requires BookInv(b) && id in b.tenants
    ensures RecordOf(b, id).status.Some? && TenantOf(RecordOf(b, id)) == b.tenants[id]
    ensures ValidQuota(RecordOf(b, id).quota)
  {
  }

  lemma SaveIsGood(b: Book, recs: seq<Record>)
    requires BookInv(b) && IsSave(b, recs)
    ensures GoodFile(recs)
  {
    forall i | 0 <= i < |recs|
      ensures recs[i].status.Some? && ValidTenant(TenantOf(recs[i])) && ValidQuota(recs[i].quota)
    {
      RecordRoundTrip(b, recs[i].id);
    }
    forall i, j | 0 <= i < j < |recs| && !IsDead(recs[i]) && !IsDead(recs[j])
      ensures recs[i].name != recs[j].name
    {
      assert b.byName[b.tenants[recs[i].id].name] == recs[i].id;
      assert b.byName[b.tenants[recs[j].id].name] == recs[j].id;
    }
  }

  lemma SameLive(b: Book, recs: seq<Record>, l: Book, id: string)
    requires BookInv(b) && IsSave(b, recs) && BookInv(l) && LoadedAs(recs, l)
    ensures IsLive(l, id) <==> IsLive(b, id)
    ensures IsLive(b, id) ==> l.tenants[id] == b.tenants[id] && QuotaOf(l, id) == QuotaOf(b, id)
  {
    if id in b.tenants {
      assert HasRecord(recs, id);
      var i :| 0 <= i < |recs| && recs[i].id == id;
      RecordRoundTrip(b, id);
      assert RecordLoaded(recs, l, i);
    } else {
      assert !HasRecord(recs, id);
    }
  }

  /** Every live tenant survives a save, in whatever order, and the load after it; none appears. */
  lemma SaveThenLoadLive(b: Book, recs: seq<Record>)
    requires BookInv(b) && IsSave(b, recs)
    ensures GoodFile(recs) && Load(recs).Some? && BookInv(Load(recs).value)
    ensures LiveOf(Load(recs).value) == LiveOf(b)
  {
    SaveIsGood(b, recs);
    LoadMeaning(recs);
    SameLiveAll(b, recs, Load(recs).value);
  }

  ghost predicate SameAt(b: Book, l: Book, id: string) {
    && (IsLive(l, id) <==> IsLive(b, id))
    && (IsLive(b, id) ==> l.tenants[id] == b.tenants[id] && QuotaOf(l, id) == QuotaOf(b, id))
  }

  lemma LiveExtensional(b: Book, l: Book)
    requires forall id :: SameAt(b, l, id)
    ensures LiveOf(l) == LiveOf(b)
  {
    forall id ensures id in LiveOf(l) <==> id in LiveOf(b)
              ensures id in LiveOf(b) ==> LiveOf(l)[id] == LiveOf(b)[id]
    {
      assert SameAt(b, l, id);
    }
  }

  lemma SameLiveAll(b: Book, recs: seq<Record>, l: Book)
    requires BookInv(b) && IsSave(b, recs) && BookInv(l) && LoadedAs(recs, l)
    ensures LiveOf(l) == LiveOf(b)
  {
    forall id ensures SameAt(b, l, id) {
      SameLive(b, recs, l, id);
    }
    LiveExtensional(b, l);
  }

  // ----- every sequence of commands

  /** One invocation of the CLI on the file `f`. */
  ghost predicate Step(f: seq<Record>, c: Command, f': seq<Record>) {
    && Load(f).Some?
    && var b := Load(f).value;
    && (c.Create? ==> c.id !in b.tenants)
    && match Apply(b, c)
       case None => f' == f
       case Some(changed) => IsSave(changed, f')
  }

  ghost predicate IsRun(files: seq<seq<Record>>, cmds: seq<Command>) {
    && |files| == |cmds| + 1 && Load(files[0]).Some?
    && forall i | 0 <= i < |cmds| :: Step(files[i], cmds[i], files[i + 1])
  }

  lemma RunPrefix(files: seq<seq<Record>>, cmds: seq<Command>, n: nat)
    requires IsRun(files, cmds) && n <= |cmds|
    ensures IsRun(files[..n + 1], cmds[..n])
  {
    var fs, cs := files[..n + 1], cmds[..n];
    forall i | 0 <= i < n ensures Step(fs[i], cs[i], fs[i + 1]) {
      assert fs[i] == files[i] && cs[i] == cmds[i] && fs[i + 1] == files[i + 1];
    }
  }

  function SpecRun(start: Live, cmds: seq<Command>): Live {
    if cmds == [] then start else Spec(SpecRun(start, cmds[..|cmds| - 1]), cmds[|cmds| - 1])
  }

  lemma StepRefines(f: seq<Record>, c: Command, f': seq<Record>)
    requires Step(f, c, f')
    ensures (f' == f || GoodFile(f')) && Load(f').Some?
    ensures LiveOf(Load(f').value) == Spec(LiveOf(Load(f).value), c)
  {
    LoadInv(f);
    var b := Load(f).value;
    ApplyRefines(b, c);
    if Apply(b, c).Some? {
      SaveThenLoadLive(Apply(b, c).value, f');
    }
  }

  /**
  From any file that loads, after any commands and whatever orders the saves used, loading the
  file succeeds and the live tenants, with names, status, reasons and quotas, are what the
  commands make of a plain map of the live tenants at the start.
  */
  lemma {:induction false} RunRefines(files: seq<seq<Record>>, cmds: seq<Command>)
    requires IsRun(files, cmds)
    ensures Load(files[|cmds|]).Some?
    ensures LiveOf(Load(files[|cmds|]).value) == SpecRun(LiveOf(Load(files[0]).value), cmds)
    decreases |cmds|
  {
    if cmds != [] {
      var n := |cmds| - 1;
      RunPrefix(files, cmds, n);
      RunRefines(files[..n + 1], cmds[..n]);
      StepRefines(files[n], cmds[n], files[n + 1]);
    }
  }

  // ----- each command, in terms of the file

  /** `levee tenant resume`: a suspended tenant is active again, without its reason; an active one is left alone. */
  lemma ResumeOnFile(f: seq<Record>, id: string, now: int, f': seq<Record>)
    requires Step(f, Resume(id, now), f')
    ensures var live, live' := LiveOf(Load(f).value), if Load(f').Some? then LiveOf(Load(f').value) else map[];
            && Load(f').Some?
            && (id !in live || live[id].tenant.status != Suspended ==> live' == live)
            && (id !in live ==> f' == f)
            && (id in live && live[id].tenant.status == Suspended ==>
                  && id in live' && live'[id].tenant.status == Active && live'[id].tenant.reason == ""
                  && live' == live[id := Entry(live[id].tenant.(status := Active, reason := "", updated := now),
                                               live[id].quota)])
  {
    StepRefines(f, Resume(id, now), f');
    LiveStatus(Load(f).value, id);
  }

  /** A live entry is not deleted. */
  lemma LiveStatus(b: Book, id: string)
    ensures id in LiveOf(b) <==> id in b.tenants && b.tenants[id].status != Deleted
    ensures id in LiveOf(b) ==> LiveOf(b)[id].tenant == b.tenants[id]
  {
  }

  /** `levee tenant suspend`: an active tenant takes the reason, a suspended one takes a new and different reason. */
  lemma SuspendOnFile(f: seq<Record>, id: string, reason: string, now: int, f': seq<Record>)
    requires Step(f, Suspend(id, reason, now), f')
    ensures var live, live' := LiveOf(Load(f).value), if Load(f').Some? then LiveOf(Load(f').value) else map[];
            && Load(f').Some?
            && (id !in live ==> live' == live && f' == f)
            && (id in live && live[id].tenant.status == Active ==>
                  live' == live[id := Entry(live[id].tenant.(status := Suspended, reason := reason, updated := now),
                                            live[id].quota)])
            && (id in live && live[id].tenant.status == Suspended
                && reason != "" && reason != live[id].tenant.reason ==>
                  live' == live[id := Entry(live[id].tenant.(reason := reason, updated := now), live[id].quota)])
            && (id in live && live[id].tenant.status == Suspended
                && (reason == "" || reason == live[id].tenant.reason) ==>
                  live' == live)
  {
    StepRefines(f, Suspend(id, reason, now), f');
    LiveStatus(Load(f).value, id);
  }

  /** `levee tenant quota`: every given limit is the new one, every other the old; a negative one refuses all. */
  lemma QuotaOnFile(f: seq<Record>, id: string, p: QuotaPatch, f': seq<Record>)
    requires Step(f, SetQuota(id, p), f')
    ensures var live, live' := LiveOf(Load(f).value), if Load(f').Some? then LiveOf(Load(f').value) else map[];
            && Load(f').Some?
            && (id !in live ==> live' == live)
            && (id in live ==>
                  var q := live[id].quota;
                  var r := Quota(if p.targets.Some? then p.targets.value else q.targets,
                                 if p.changes.Some? then p.changes.value else q.changes,
                                 if p.storage.Some? then p.storage.value else q.storage,
                                 if p.apiRate.Some? then p.apiRate.value else q.apiRate);
                  live' == if r.targets >= 0 && r.changes >= 0 && r.storage >= 0 && r.apiRate >= 0
                           then live[id := Entry(live[id].tenant, r)] else live)
  {
    StepRefines(f, SetQuota(id, p), f');
  }

  /** The file lists a tenant as deleted, with its name and reason. */
  ghost predicate ListedDeleted(f: seq<Record>, t: Tenant, now: int) {
    exists i {:trigger f[i]} | 0 <= i < |f| ::
      && f[i].id == t.id && f[i].status == Some(Deleted) && f[i].name == t.name
      && f[i].reason == t.reason && f[i].updated == now
  }

  /** `levee tenant delete`: the tenant is no longer live and is listed as deleted; the others are as before. */
  lemma DeleteOnFile(f: seq<Record>, id: string, now: int, f': seq<Record>)
    requires Step(f, Delete(id, now), f')
    ensures var live, live' := LiveOf(Load(f).value), if Load(f').Some? then LiveOf(Load(f').value) else map[];
            && Load(f').Some? && id !in live' && live' == live - {id}
            && (id in live ==> ListedDeleted(f', live[id].tenant, now))
  {
    StepRefines(f, Delete(id, now), f');
    LoadInv(f);
    var b := Load(f).value;
    LiveStatus(b, id);
    if id in LiveOf(b) {
      var d := DeleteIn(b, id, now).value;
      assert HasRecord(f', id);
      var i :| 0 <= i < |f'| && f'[i].id == id;
      assert f'[i] == RecordOf(d, id);
    }
  }

  /** `levee tenant create`: exactly which names and quotas are accepted, and the tenant that is stored. */
  lemma CreateOnFile(f: seq<Record>, name: string, display: string, q: Quota, id: string, now: int, f': seq<Record>)
    requires Step(f, Create(name, display, q, id, now), f')
    ensures var live, live' := LiveOf(Load(f).value), if Load(f').Some? then LiveOf(Load(f').value) else map[];
            var accepted :=
              && id != "" && 3 <= |name| <= 64
              && (forall i | 0 <= i < |name| ::
                    'a' <= name[i] <= 'z' || '0' <= name[i] <= '9' || (name[i] == '-' && 0 < i < |name| - 1))
              && (forall x | x in live :: live[x].tenant.name != name)
              && q.targets >= 0 && q.changes >= 0 && q.storage >= 0 && q.apiRate >= 0;
            && Load(f').Some?
            && live' == if !accepted then live
                        else live[id := Entry(Tenant(id, name, "tenant-" + name, Active, "", now,
                                                     Info(display, now, map[])), q)]
  {
    StepRefines(f, Create(name, display, q, id, now), f');
    NamePattern(name);
  }

  lemma NamePattern(name: string)
    ensures ValidName(name) <==>
            && 3 <= |name| <= 64
            && (forall i | 0 <= i < |name| ::
                  'a' <= name[i] <= 'z' || '0' <= name[i] <= '9' || (name[i] == '-' && 0 < i < |name| - 1))
  {
    if ValidName(name) {
      forall i | 0 <= i < |name|
        ensures 'a' <= name[i] <= 'z' || '0' <= name[i] <= '9' || (name[i] == '-' && 0 < i < |name| - 1)
      {
        assert NameEnd(name[i]) || name[i] == '-';
      }
    }
  }

  /**
  Exactly which further record a load takes: one with an id and a proper name, no namespace or the
  one of its name, quotas that are not negative, an id that is new and a name that no live tenant holds.
  */
  lemma RecordTakenExactly(f: seq<Record>, r: Record)
    requires Load(f).Some? && r.status.Some?
    ensures var b := Load(f).value;
            && Load(f + [r]).Some?
            && Load(f + [r]).value.tenants ==
               if !Takes(b, r) then b.tenants
               else b.tenants[r.id := Tenant(r.id, r.name, "tenant-" + r.name, r.status.value, r.reason,
                                             r.updated, r.info)]
  {
    LoadInv(f);
    var b := Load(f).value;
    assert (f + [r])[..|f|] == f;
    LoadUnfolds(f + [r], |f|);
    TakesExactly(b, r);
  }

  lemma TakesExactly(b: Book, r: Record)
    requires BookInv(b) && r.status.Some?
    ensures RestoreIn(b, TenantOf(r), r.quota).Some? <==> Takes(b, r)
    ensures Takes(b, r) ==> r.namespace == "" || r.namespace == "tenant-" + r.name
  {
    NamePattern(r.name);
    HeldByLive(b, r.name);
  }

  /** What the manager b and the record r must be for r to be taken. */
  ghost predicate Takes(b: Book, r: Record) {
    && r.id != "" && 3 <= |r.name| <= 64
    && (forall i | 0 <= i < |r.name| ::
          'a' <= r.name[i] <= 'z' || '0' <= r.name[i] <= '9' || (r.name[i] == '-' && 0 < i < |r.name| - 1))
    && (r.namespace == "" || r.namespace == "tenant-" + r.name)
    && r.quota.targets >= 0 && r.quota.changes >= 0 && r.quota.storage >= 0 && r.quota.apiRate >= 0
    && r.id !in b.tenants
    && (forall x | x in b.tenants && b.tenants[x].status != Deleted :: b.tenants[x].name != r.name)
  }

  lemma HeldByLive(b: Book, name: string)
    requires BookInv(b)
    ensures name in b.byName <==>
            exists x :: x in b.tenants && b.tenants[x].status != Deleted && b.tenants[x].name == name
    ensures name in b.byName ==> b.byName[name] in b.tenants && b.tenants[b.byName[name]].status != Deleted
  {
  }

  /** What every tenant and every quota of a loaded file satisfies, whatever the file said. */
  lemma LoadedAreValid(f: seq<Record>, id: string)
    requires Load(f).Some? && id in Load(f).value.tenants
    ensures var t := Load(f).value.tenants[id];
            && t.id == id != "" && 3 <= |t.name| <= 64 && t.namespace == "tenant-" + t.name
            && (forall i | 0 <= i < |t.name| ::
                  'a' <= t.name[i] <= 'z' || '0' <= t.name[i] <= '9' || (t.name[i] == '-' && 0 < i < |t.name| - 1))
    ensures var q := QuotaOf(Load(f).value, id); q.targets >= 0 && q.changes >= 0 && q.storage >= 0 && q.apiRate >= 0
  {
    LoadInv(f);
    NamePattern(Load(f).value.tenants[id].name);
  }

  // ----- the deleted tenants

  /** A load skips exactly the deleted records that come after a live one of the same name. */
  lemma SkippedExactly(recs: seq<Record>, i: nat)
    requires GoodFile(recs) && i < |recs|
    ensures Load(recs).Some?
    ensures recs[i].id !in Load(recs).value.tenants <==> Shadowed(recs, i)
  {
    LoadMeaning(recs);
    assert RecordLoaded(recs, Load(recs).value, i);
  }

  /** No live tenant has taken the name of a deleted one. */
  ghost predicate NoClash(ts: Tenants) {
    forall d, l | d in ts && l in ts && ts[d].status == Deleted && ts[l].status != Deleted ::
      ts[d].name != ts[l].name
  }

  ghost predicate NamesNotReused(b: Book) {
    NoClash(b.tenants)
  }

  /** The load after the save gives back every tenant as it was, and no other. */
  ghost predicate SurvivesSave(b: Book, recs: seq<Record>) {
    Load(recs).Some? && Load(recs).value.tenants == b.tenants
  }

  lemma ListsOneMore(b: Book, ids: set<string>, recs: seq<Record>, id: string)
    requires BookInv(b) && Lists(b, ids, recs) && id in b.tenants && id !in ids
    ensures Lists(b, ids + {id}, [RecordOf(b, id)] + recs)
  {
    var more := [RecordOf(b, id)] + recs;
    forall x | x in ids + {id} ensures HasRecord(more, x) {
      if x == id {
        assert more[0].id == x;
      } else {
        assert HasRecord(recs, x);
        var i :| 0 <= i < |recs| && recs[i].id == x;
        assert more[i + 1].id == x;
      }
    }
  }

  lemma {:induction false} ListSome(b: Book, ids: set<string>) returns (recs: seq<Record>)
    requires BookInv(b) && ids <= b.tenants.Keys
    ensures Lists(b, ids, recs)
    decreases |ids|
  {
    recs := [];
    if ids != {} {
      var id :| id in ids;
      var rest := ListSome(b, ids - {id});
      ListsOneMore(b, ids - {id}, rest, id);
      recs := [RecordOf(b, id)] + rest;
      assert ids - {id} + {id} == ids;
    }
  }

  /** A save may list any two tenants first. */
  lemma SaveWithFront(b: Book, l: string, d: string) returns (recs: seq<Record>)
    requires BookInv(b) && d in b.tenants && l in b.tenants && d != l
    ensures IsSave(b, recs) && |recs| >= 2 && recs[0] == RecordOf(b, l) && recs[1] == RecordOf(b, d)
  {
    var others := b.tenants.Keys - {d, l};
    var rest := ListSome(b, others);
    ListsOneMore(b, others, rest, d);
    ListsOneMore(b, others + {d}, [RecordOf(b, d)] + rest, l);
    recs := [RecordOf(b, l)] + ([RecordOf(b, d)] + rest);
    assert others + {d} + {l} == b.tenants.Keys;
  }

  /** With a reused name, the order that puts the live tenant first loses the deleted one. */
  lemma ReuseLosesRecord(b: Book, d: string, l: string) returns (recs: seq<Record>)
    requires BookInv(b) && d in b.tenants && l in b.tenants
    requires b.tenants[d].status == Deleted && b.tenants[l].status != Deleted
    requires b.tenants[d].name == b.tenants[l].name
    ensures IsSave(b, recs) && Load(recs).Some? && d !in Load(recs).value.tenants
  {
    recs := SaveWithFront(b, l, d);
    SaveIsGood(b, recs);
    assert Shadowed(recs, 1) by {
      assert !IsDead(recs[0]) && recs[0].name == recs[1].name;
    }
    SkippedExactly(recs, 1);
  }

  ghost predicate TenantSame(x: map<string, Tenant>, y: map<string, Tenant>, id: string) {
    (id in x <==> id in y) && (id in x ==> x[id] == y[id])
  }

  lemma TenantsExtensional(x: map<string, Tenant>, y: map<string, Tenant>)
    requires forall id :: TenantSame(x, y, id)
    ensures x == y
  {
    forall id ensures (id in x <==> id in y) && (id in x ==> x[id] == y[id]) {
      assert TenantSame(x, y, id);
    }
  }

  lemma SurvivesAt(b: Book, recs: seq<Record>, l: Book, id: string)
    requires BookInv(b) && IsSave(b, recs) && NamesNotReused(b) && LoadedAs(recs, l)
    ensures TenantSame(l.tenants, b.tenants, id)
  {
    if id in b.tenants {
      assert HasRecord(recs, id);
      var i :| 0 <= i < |recs| && recs[i].id == id;
      NotShadowed(b, recs, i);
      RecordRoundTrip(b, id);
      assert RecordLoaded(recs, l, i);
    } else {
      assert !HasRecord(recs, id);
    }
  }

  lemma SurvivesAll(b: Book, recs: seq<Record>, l: Book)
    requires BookInv(b) && IsSave(b, recs) && NamesNotReused(b) && LoadedAs(recs, l)
    ensures l.tenants == b.tenants
  {
    forall id ensures TenantSame(l.tenants, b.tenants, id) {
      SurvivesAt(b, recs, l, id);
    }
    TenantsExtensional(l.tenants, b.tenants);
  }

  lemma SurvivesWithoutReuse(b: Book, recs: seq<Record>)
    requires BookInv(b) && IsSave(b, recs) && NamesNotReused(b)
    ensures SurvivesSave(b, recs)
  {
    SaveIsGood(b, recs);
    LoadMeaning(recs);
    SurvivesAll(b, recs, Load(recs).value);
  }

  lemma NotShadowed(b: Book, recs: seq<Record>, i: nat)
    requires BookInv(b) && IsSave(b, recs) && NamesNotReused(b) && i < |recs|
    ensures !Shadowed(recs, i)
  {
    forall j | 0 <= j < i && IsDead(recs[i]) && !IsDead(recs[j]) ensures recs[j].name != recs[i].name {
      RecordRoundTrip(b, recs[i].id);
      RecordRoundTrip(b, recs[j].id);
    }
  }

  /**
  The comment on Restore calls a registry with a deleted and a live tenant of one name
  legitimate. Every save order keeps all tenants exactly when no name has been reused.
  */
  lemma AllTenantsSurviveExactly(b: Book)
    requires BookInv(b)
    ensures (forall recs: seq<Record> | IsSave(b, recs) :: SurvivesSave(b, recs)) <==> NamesNotReused(b)
  {
    if NamesNotReused(b) {
      forall recs: seq<Record> | IsSave(b, recs) ensures SurvivesSave(b, recs) {
        SurvivesWithoutReuse(b, recs);
      }
    } else {
      var d, l :| d in b.tenants && l in b.tenants && b.tenants[d].status == Deleted
                  && b.tenants[l].status != Deleted && b.tenants[d].name == b.tenants[l].name;
      var recs := ReuseLosesRecord(b, d, l);
    }
  }

  // ----- runs that never reuse a name keep every tenant, deleted ones included

  predicate NameFree(ts: Tenants, name: string) {
    forall x | x in ts && ts[x].name == name :: ts[x].status == Deleted
  }

  /** What each command should do to all tenants; deleted ones stay, frozen. */
  function SpecAll(ts: Tenants, c: Command): Tenants {
    match c
    case Create(name, display, quota, id, now) =>
      var t := NewTenant(id, name, display, now);
      if ValidTenant(t) && ValidQuota(quota) && NameFree(ts, name) then ts[id := t] else ts
    case Suspend(id, reason, now) =>
      if id in ts && ts[id].status != Deleted then ts[id := Suspending(ts[id], reason, now)] else ts
    case Resume(id, now) =>
      if id in ts && ts[id].status != Deleted then ts[id := Resuming(ts[id], now)] else ts
    case Delete(id, now) =>
      if id in ts && ts[id].status != Deleted then ts[id := ts[id].(status := Deleted, updated := now)] else ts
    case SetQuota(_, _) => ts
  }

  function SpecAllRun(cmds: seq<Command>): Tenants {
    if cmds == [] then map[] else SpecAll(SpecAllRun(cmds[..|cmds| - 1]), cmds[|cmds| - 1])
  }

  predicate DistinctCreates(cmds: seq<Command>) {
    forall i, j | 0 <= i < j < |cmds| && cmds[i].Create? && cmds[j].Create? :: cmds[i].name != cmds[j].name
  }

  ghost predicate CreatedBy(cmds: seq<Command>, name: string) {
    exists i {:trigger cmds[i]} | 0 <= i < |cmds| :: cmds[i].Create? && cmds[i].name == name
  }

  ghost predicate NamesDistinct(ts: Tenants) {
    forall x, y | x in ts && y in ts && x != y :: ts[x].name != ts[y].name
  }

  ghost predicate NamesCreated(ts: Tenants, cmds: seq<Command>) {
    forall x | x in ts :: CreatedBy(cmds, ts[x].name)
  }

  lemma ApplyTenants(b: Book, c: Command)
    requires BookInv(b)
    ensures SpecAll(b.tenants, c) == if Apply(b, c).Some? then Apply(b, c).value.tenants else b.tenants
  {
    if c.Create? {
      assert NameFree(b.tenants, c.name) <==> c.name !in b.byName;
    }
  }

  lemma NamesStay(ts: Tenants, c: Command, x: string)
    requires x in SpecAll(ts, c)
    ensures || (x in ts && SpecAll(ts, c)[x].name == ts[x].name)
            || (c.Create? && x == c.id && SpecAll(ts, c)[x].name == c.name)
  {
  }

  lemma CreatedGrows(cmds: seq<Command>, n: nat, name: string)
    requires |cmds| == n + 1
    ensures CreatedBy(cmds, name) <==> CreatedBy(cmds[..n], name) || (cmds[n].Create? && cmds[n].name == name)
  {
    if CreatedBy(cmds[..n], name) {
      var i :| 0 <= i < n && cmds[..n][i].Create? && cmds[..n][i].name == name;
      assert cmds[i].Create?;
    }
    if i :| 0 <= i < |cmds| && cmds[i].Create? && cmds[i].name == name {
      assert i < n ==> cmds[..n][i] == cmds[i];
    }
  }

  lemma NamesStep(cmds: seq<Command>, n: nat, ts: Tenants)
    requires |cmds| == n + 1 && DistinctCreates(cmds)
    requires NamesDistinct(ts) && NamesCreated(ts, cmds[..n])
    ensures NamesDistinct(SpecAll(ts, cmds[n])) && NamesCreated(SpecAll(ts, cmds[n]), cmds)
  {
    var ts' := SpecAll(ts, cmds[n]);
    forall x | x in ts' ensures CreatedBy(cmds, ts'[x].name) {
      NamesStay(ts, cmds[n], x);
      CreatedGrows(cmds, n, ts'[x].name);
    }
    forall x, y | x in ts' && y in ts' && x != y ensures ts'[x].name != ts'[y].name {
      NamesStay(ts, cmds[n], x);
      NamesStay(ts, cmds[n], y);
      if cmds[n].Create? {
        NotCreatedBefore(cmds, n);
      }
    }
  }

  lemma NotCreatedBefore(cmds: seq<Command>, n: nat)
    requires |cmds| == n + 1 && DistinctCreates(cmds) && cmds[n].Create?
    ensures !CreatedBy(cmds[..n], cmds[n].name)
  {
    forall i | 0 <= i < n && cmds[..n][i].Create? ensures cmds[..n][i].name != cmds[n].name {
      assert cmds[i].name != cmds[n].name;
    }
  }

  lemma StepKeepsAll(f: seq<Record>, c: Command, f': seq<Record>)
    requires Step(f, c, f') && NoClash(SpecAll(Load(f).value.tenants, c))
    ensures Load(f').Some? && Load(f').value.tenants == SpecAll(Load(f).value.tenants, c)
  {
    LoadInv(f);
    var b := Load(f).value;
    ApplyTenants(b, c);
    ApplyRefines(b, c);
    if Apply(b, c).Some? {
      SurvivesWithoutReuse(Apply(b, c).value, f');
    }
  }

  /** After none of the commands does a live tenant have a deleted one's name. */
  ghost predicate NeverReused(cmds: seq<Command>) {
    NoClash(SpecAllRun(cmds)) && (cmds == [] || NeverReused(cmds[..|cmds| - 1]))
  }

  ghost predicate StartsEmpty(files: seq<seq<Record>>, cmds: seq<Command>) {
    IsRun(files, cmds) && files[0] == []
  }

  /** Whatever the save orders, after the last command the file loads with every tenant. */
  ghost predicate KeepsAll(cmds: seq<Command>) {
    forall files: seq<seq<Record>> | StartsEmpty(files, cmds) ::
      Load(files[|cmds|]).Some? && Load(files[|cmds|]).value.tenants == SpecAllRun(cmds)
  }

  /** So it is after every command. */
  ghost predicate AlwaysKeepsAll(cmds: seq<Command>) {
    KeepsAll(cmds) && (cmds == [] || AlwaysKeepsAll(cmds[..|cmds| - 1]))
  }

  lemma NextKeeps(f: seq<Record>, f': seq<Record>, cmds: seq<Command>, n: nat)
    requires |cmds| == n + 1 && Step(f, cmds[n], f')
    requires Load(f).value.tenants == SpecAllRun(cmds[..n]) && NoClash(SpecAllRun(cmds))
    ensures Load(f').Some? && Load(f').value.tenants == SpecAllRun(cmds)
  {
    StepKeepsAll(f, cmds[n], f');
  }

  lemma {:induction false} FileKeepsAll(files: seq<seq<Record>>, cmds: seq<Command>, n: nat)
    requires StartsEmpty(files, cmds) && n <= |cmds| && NeverReused(cmds[..n])
    ensures Load(files[n]).Some? && Load(files[n]).value.tenants == SpecAllRun(cmds[..n])
  {
    if n > 0 {
      assert cmds[..n][..n - 1] == cmds[..n - 1];
      FileKeepsAll(files, cmds, n - 1);
      NextKeeps(files[n - 1], files[n], cmds[..n], n - 1);
    }
  }

  /** From an empty file, a run that never reuses a deleted tenant's name loses no tenant. */
  lemma RunKeepsAll(files: seq<seq<Record>>, cmds: seq<Command>)
    requires StartsEmpty(files, cmds) && NeverReused(cmds)
    ensures Load(files[|cmds|]).Some? && Load(files[|cmds|]).value.tenants == SpecAllRun(cmds)
  {
    assert cmds[..|cmds|] == cmds;
    FileKeepsAll(files, cmds, |cmds|);
  }

  /** Identifiers are minted fresh. */
  predicate FreshIds(cmds: seq<Command>) {
    forall i, j | 0 <= i < j < |cmds| && cmds[i].Create? && cmds[j].Create? :: cmds[i].id != cmds[j].id
  }

  lemma {:induction false} IdFromCreate(cmds: seq<Command>, x: string) returns (i: nat)
    requires x in SpecAllRun(cmds)
    ensures i < |cmds| && cmds[i].Create? && cmds[i].id == x
    decreases |cmds|
  {
    var n := |cmds| - 1;
    NamesStay(SpecAllRun(cmds[..n]), cmds[n], x);
    if x in SpecAllRun(cmds[..n]) {
      i := IdFromCreate(cmds[..n], x);
    } else {
      i := n;
    }
  }

  lemma IdIsNew(cmds: seq<Command>, n: nat)
    requires |cmds| == n + 1 && FreshIds(cmds) && cmds[n].Create?
    ensures cmds[n].id !in SpecAllRun(cmds[..n])
  {
    if cmds[n].id in SpecAllRun(cmds[..n]) {
      var i := IdFromCreate(cmds[..n], cmds[n].id);
    }
  }

  lemma RunAppend(files: seq<seq<Record>>, cmds: seq<Command>, n: nat, f: seq<Record>)
    requires |cmds| == n + 1 && StartsEmpty(files, cmds[..n]) && Step(files[n], cmds[n], f)
    ensures StartsEmpty(files + [f], cmds)
  {
    var more := files + [f];
    forall i | 0 <= i < |cmds| ensures Step(more[i], cmds[i], more[i + 1]) {
      if i < n {
        assert Step(files[i], cmds[..n][i], files[i + 1]);
      }
    }
  }

  /** The commands can be run, as long as they lose nothing. */
  lemma {:induction false} SomeRun(cmds: seq<Command>) returns (files: seq<seq<Record>>)
    requires FreshIds(cmds) && NeverReused(cmds)
    ensures StartsEmpty(files, cmds)
    decreases |cmds|
  {
    files := [[]];
    if cmds != [] {
      var n := |cmds| - 1;
      files := SomeRun(cmds[..n]);
      var f := SomeStep(files, cmds, n);
      RunAppend(files, cmds, n, f);
      files := files + [f];
    }
  }

  lemma ManagerAt(files: seq<seq<Record>>, cmds: seq<Command>, n: nat) returns (b: Book)
    requires |cmds| == n + 1 && FreshIds(cmds) && StartsEmpty(files, cmds[..n]) && NeverReused(cmds[..n])
    ensures Load(files[n]) == Some(b) && BookInv(b) && b.tenants == SpecAllRun(cmds[..n])
    ensures cmds[n].Create? ==> cmds[n].id !in b.tenants
    ensures Apply(b, cmds[n]).Some? ==> BookInv(Apply(b, cmds[n]).value)
    ensures SpecAllRun(cmds) == if Apply(b, cmds[n]).Some? then Apply(b, cmds[n]).value.tenants else b.tenants
  {
    RunKeepsAll(files, cmds[..n]);
    LoadInv(files[n]);
    b := Load(files[n]).value;
    if cmds[n].Create? {
      IdIsNew(cmds, n);
    }
    ApplyTenants(b, cmds[n]);
    ApplyRefines(b, cmds[n]);
  }

  lemma SomeStep(files: seq<seq<Record>>, cmds: seq<Command>, n: nat) returns (f: seq<Record>)
    requires |cmds| == n + 1 && FreshIds(cmds) && StartsEmpty(files, cmds[..n]) && NeverReused(cmds[..n])
    ensures Step(files[n], cmds[n], f)
  {
    var b := ManagerAt(files, cmds, n);
    f := files[n];
    if Apply(b, cmds[n]).Some? {
      f := ListSome(Apply(b, cmds[n]).value, Apply(b, cmds[n]).value.tenants.Keys);
    }
  }

  /** The first reuse of a name: some save order loses the deleted tenant right there. */
  lemma ReuseLoses(files: seq<seq<Record>>, cmds: seq<Command>, n: nat) returns (f: seq<Record>)
    requires |cmds| == n + 1 && FreshIds(cmds) && StartsEmpty(files, cmds[..n]) && NeverReused(cmds[..n])
    requires !NoClash(SpecAllRun(cmds))
    ensures Step(files[n], cmds[n], f) && Load(f).Some? && Load(f).value.tenants != SpecAllRun(cmds)
  {
    var b := ManagerAt(files, cmds, n);
    var ts := SpecAllRun(cmds);
    var d, l :| d in ts && l in ts && ts[d].status == Deleted && ts[l].status != Deleted && ts[d].name == ts[l].name;
    assert Apply(b, cmds[n]).Some?;
    f := ReuseLosesRecord(Apply(b, cmds[n]).value, d, l);
  }

  lemma ReuseBreaks(cmds: seq<Command>)
    requires cmds != [] && FreshIds(cmds) && NeverReused(cmds[..|cmds| - 1]) && !NoClash(SpecAllRun(cmds))
    ensures !KeepsAll(cmds)
  {
    var n := |cmds| - 1;
    var files := SomeRun(cmds[..n]);
    var f := ReuseLoses(files, cmds, n);
    RunAppend(files, cmds, n, f);
    var more := files + [f];
    assert StartsEmpty(more, cmds) && more[|cmds|] == f;
  }

  /**
  From an empty file, with fresh identifiers: every run of the commands, whatever its save
  orders, has every tenant in its file after every command exactly when no command makes a live
  tenant of a deleted one's name.
  */
  lemma {:induction false} KeepsAllExactly(cmds: seq<Command>)
    requires FreshIds(cmds)
    ensures AlwaysKeepsAll(cmds) <==> NeverReused(cmds)
    decreases |cmds|
  {
    if cmds != [] {
      KeepsAllExactly(cmds[..|cmds| - 1]);
    }
    if NeverReused(cmds) {
      forall files: seq<seq<Record>> | StartsEmpty(files, cmds)
        ensures Load(files[|cmds|]).Some? && Load(files[|cmds|]).value.tenants == SpecAllRun(cmds)
      {
        RunKeepsAll(files, cmds);
      }
    } else if cmds != [] && NeverReused(cmds[..|cmds| - 1]) {
      ReuseBreaks(cmds);
    }
  }

  /** It is enough that no name is created twice. */
  lemma {:induction false} DistinctNamesSuffice(cmds: seq<Command>)
    requires DistinctCreates(cmds)
    ensures NeverReused(cmds) && NamesDistinct(SpecAllRun(cmds)) && NamesCreated(SpecAllRun(cmds), cmds)
    decreases |cmds|
  {
    if cmds != [] {
      var n := |cmds| - 1;
      assert DistinctCreates(cmds[..n]);
      DistinctNamesSuffice(cmds[..n]);
      NamesStep(cmds, n, SpecAllRun(cmds[..n]));
    }
  }

  lemma LoadSingle(r: Record)
    requires r.status.Some?
    ensures Load([r]) == Some(AddRecord(EMPTY, r))
  {
    assert [r][..0] == [];
    LoadUnfolds([r], 0);
  }

  lemma SaveSingle(b: Book, id: string)
    requires b.tenants.Keys == {id} && b.tenants[id].id == id
    ensures IsSave(b, [RecordOf(b, id)])
  {
    assert [RecordOf(b, id)][0].id == id;
  }

  function FreshRecord(id: string, name: string, now: int): Record {
    Record(id, name, NamespaceFor(name), Some(Active), "", now, Info("", now, map[]), UNLIMITED)
  }

  lemma FirstCreateStep(name: string, id: string)
    requires ValidName(name) && id != ""
    ensures Step([], Create(name, "", UNLIMITED, id, 1), [FreshRecord(id, name, 1)])
  {
    var b := CreateIn(EMPTY, NewTenant(id, name, "", 1), UNLIMITED).value;
    assert RecordOf(b, id) == FreshRecord(id, name, 1);
    SaveSingle(b, id);
  }

  lemma DeleteOnlyStep(name: string, id: string)
    requires ValidName(name) && id != ""
    ensures Step([FreshRecord(id, name, 1)], Delete(id, 2),
                 [FreshRecord(id, name, 1).(status := Some(Deleted), updated := 2)])
  {
    var r := FreshRecord(id, name, 1);
    LoadSingle(r);
    var b := AddRecord(EMPTY, r);
    var d := DeleteIn(b, id, 2).value;
    assert RecordOf(d, id) == r.(status := Some(Deleted), updated := 2);
    SaveSingle(d, id);
  }

  lemma RecreateStep(name: string, first: string, second: string) returns (f: seq<Record>)
    requires ValidName(name) && first != "" && second != "" && first != second
    ensures Step([FreshRecord(first, name, 1).(status := Some(Deleted), updated := 2)],
                 Create(name, "", UNLIMITED, second, 3), f)
    ensures HasRecord(f, first) && Load(f).Some? && first !in Load(f).value.tenants
  {
    var r := FreshRecord(first, name, 1).(status := Some(Deleted), updated := 2);
    LoadSingle(r);
    var b := AddRecord(EMPTY, r);
    var c := CreateIn(b, NewTenant(second, name, "", 3), UNLIMITED).value;
    assert BookInv(c);
    f := ReuseLosesRecord(c, first, second);
  }

  /** create, delete, create again under the same name: the deleted tenant's record is lost. */
  lemma ReusedNameRun(name: string, first: string, second: string)
    returns (files: seq<seq<Record>>, cmds: seq<Command>)
    requires ValidName(name) && first != "" && second != "" && first != second
    ensures IsRun(files, cmds) && |cmds| == 3 && files[0] == []
    ensures HasRecord(files[3], first) && Load(files[3]).Some? && first !in Load(files[3]).value.tenants
  {
    cmds := [Create(name, "", UNLIMITED, first, 1), Delete(first, 2), Create(name, "", UNLIMITED, second, 3)];
    var live := FreshRecord(first, name, 1);
    FirstCreateStep(name, first);
    DeleteOnlyStep(name, first);
    var f := RecreateStep(name, first, second);
    files := [[], [live], [live.(status := Some(Deleted), updated := 2)], f];
  }

  // ----- the manager as the Go code has it

  class TenantManager {
    var tenants: map<string, Tenant>
    var byName: map<string, string>
    var quotas: map<string, Quota>

    function Contents(): Book
      reads this
    {
      Book(tenants, byName, quotas)
    }

    constructor ()
      ensures Contents() == EMPTY
    {
      tenants, byName, quotas := map[], map[], map[];
    }

    method Restore(t: Tenant, q: Quota) returns (ok: bool)
      modifies this
      ensures ok == RestoreIn(old(Contents()), t, q).Some?
      ensures Contents() ==
              if ok then RestoreIn(old(Contents()), t, q).value else old(Contents())
    {
      if !ValidTenant(t) || t.id in tenants {
        return false;
      }
      if t.name in byName && byName[t.name] != t.id {
        var holder := byName[t.name];
        if holder in tenants && tenants[holder].status != Deleted {
          return false;
        }
      }
      if !ValidQuota(q) {
        return false;
      }
      quotas := quotas[t.id := q];
      tenants := tenants[t.id := t];
      if t.status != Deleted {
        byName := byName[t.name := t.id];
      }
      ok := true;
    }

    method Create(t: Tenant, q: Quota) returns (ok: bool)
      modifies this
      ensures ok == CreateIn(old(Contents()), t, q).Some?
      ensures Contents() == if ok then CreateIn(old(Contents()), t, q).value else old(Contents())
    {
      if !ValidTenant(t) || t.name in byName || !ValidQuota(q) {
        return false;
      }
      quotas := quotas[t.id := q];
      tenants := tenants[t.id := t];
      byName := byName[t.name := t.id];
      ok := true;
    }

    method Suspend(id: string, reason: string, now: int) returns (ok: bool)
      modifies this
      ensures ok == (id in old(tenants) && old(tenants)[id].status != Deleted)
      ensures byName == old(byName) && quotas == old(quotas)
      ensures !ok ==> tenants == old(tenants)
      ensures ok && old(tenants)[id].status == Active ==>
                tenants == old(tenants)[id := old(tenants)[id].(status := Suspended, reason := reason, updated := now)]
      ensures ok && old(tenants)[id].status == Suspended ==>
                tenants == if reason == "" || reason == old(tenants)[id].reason then old(tenants)
                           else old(tenants)[id := old(tenants)[id].(reason := reason, updated := now)]
      ensures ok == Apply(old(Contents()), Command.Suspend(id, reason, now)).Some?
      ensures Contents() ==
              if ok then Apply(old(Contents()), Command.Suspend(id, reason, now)).value else old(Contents())
    {
      if id !in tenants || tenants[id].status == Deleted {
        return false;
      }
      var t := tenants[id];
      if t.status == Suspended {
        if reason != "" && reason != t.reason {
          tenants := tenants[id := t.(reason := reason, updated := now)];
        }
      } else {
        tenants := tenants[id := t.(status := Suspended, reason := reason, updated := now)];
      }
      ok := true;
    }

    method Resume(id: string, now: int) returns (ok: bool)
      modifies this
      ensures ok == (id in old(tenants) && old(tenants)[id].status != Deleted)
      ensures byName == old(byName) && quotas == old(quotas)
      ensures !ok || old(tenants)[id].status == Active ==> tenants == old(tenants)
      ensures ok && old(tenants)[id].status == Suspended ==>
                tenants == old(tenants)[id := old(tenants)[id].(status := Active, reason := "", updated := now)]
      ensures ok == Apply(old(Contents()), Command.Resume(id, now)).Some?
      ensures Contents() == if ok then Apply(old(Contents()), Command.Resume(id, now)).value else old(Contents())
    {
      if id !in tenants || tenants[id].status == Deleted {
        return false;
      }
      if tenants[id].status != Active {
        tenants := tenants[id := tenants[id].(status := Active, reason := "", updated := now)];
      }
      ok := true;
    }

    method Delete(id: string, now: int) returns (ok: bool)
      modifies this
      ensures ok == (id in old(tenants))
      ensures !ok || old(tenants)[id].status == Deleted ==>
                tenants == old(tenants) && byName == old(byName) && quotas == old(quotas)
      ensures ok && old(tenants)[id].status != Deleted ==>
                && tenants == old(tenants)[id := old(tenants)[id].(status := Deleted, updated := now)]
                && byName == old(byName) - {old(tenants)[id].name} && quotas == old(quotas) - {id}
      ensures ok == DeleteIn(old(Contents()), id, now).Some?
      ensures Contents() == if ok then DeleteIn(old(Contents()), id, now).value else old(Contents())
    {
      if id !in tenants {
        return false;
      }
      if tenants[id].status != Deleted {
        byName := byName - {tenants[id].name};
        tenants := tenants[id := tenants[id].(status := Deleted, updated := now)];
        quotas := quotas - {id};
      }
      ok := true;
    }

    method UpdateQuota(id: string, patch: QuotaPatch) returns (ok: bool)
      modifies this
      ensures ok == SetQuotaIn(old(Contents()), id, patch).Some?
      ensures Contents() == if ok then SetQuotaIn(old(Contents()), id, patch).value else old(Contents())
    {
      var q := Patch(if id in quotas then quotas[id] else UNLIMITED, patch);
      if id !in tenants || tenants[id].status == Deleted || !ValidQuota(q) {
        return false;
      }
      quotas := quotas[id := q];
      ok := true;
    }

    /** registryToManager into an empty manager; false when a status word is unknown. */
    method LoadRegistry(recs: seq<Record>) returns (ok: bool)
      requires Contents() == EMPTY
      modifies this
      ensures ok == Load(recs).Some?
      ensures ok ==> Contents() == Load(recs).value
    {
      var i := 0;
      while i < |recs|
        invariant 0 <= i <= |recs|
        invariant Load(recs[..i]) == Some(Contents())
      {
        assert recs[..i + 1][..i] == recs[..i];
        if recs[i].status.None? {
          BadStatusFails(recs, i);
          return false;
        }
        LoadUnfolds(recs[..i + 1], i);
        var restored := Restore(TenantOf(recs[i]), recs[i].quota);
        i := i + 1;
      }
      assert recs[..i] == recs;
      ok := true;
    }

    /** managerToRegistry: the tenants in the order the map happens to give them. */
    method SaveRegistry() returns (recs: seq<Record>)
      requires BookInv(Contents())
      ensures IsSave(Contents(), recs)
    {
      recs := [];
      var todo := tenants.Keys;
      while todo != {}
        invariant todo <= tenants.Keys
        invariant Lists(Contents(), tenants.Keys - todo, recs)
      {
        var id :| id in todo;
        ListsOneMore(Contents(), tenants.Keys - todo, recs, id);
        recs := [RecordOf(Contents(), id)] + recs;
        assert tenants.Keys - (todo - {id}) == tenants.Keys - todo + {id};
        todo := todo - {id};
      }
      assert tenants.Keys - todo == tenants.Keys;
    }
  }

  lemma {:induction false} BadStatusFails(recs: seq<Record>, i: nat)
    requires i < |recs| && recs[i].status.None?
    ensures Load(recs).None?
    decreases |recs|
  {
    if i < |recs| - 1 {
      BadStatusFails(recs[..|recs| - 1], i);
    }
  }

  /** One `levee tenant` invocation: load, change, save; the file changes only on success. */
  method RunCommand(f: seq<Record>, c: Command) returns (f': seq<Record>)
    requires c.Create? && Load(f).Some? ==> c.id !in Load(f).value.tenants
    ensures Load(f).None? ==> f' == f
    ensures Load(f).Some? ==> Step(f, c, f')
    ensures f' == f || GoodFile(f')
  {
    LoadInv(f);
    var tm := new TenantManager();
    var loaded := tm.LoadRegistry(f);
    if !loaded {
      return f;
    }
    ghost var b := tm.Contents();
    ApplyRefines(b, c);
    var ok: bool;
    match c {
      case Create(name, display, quota, id, now) => ok := tm.Create(NewTenant(id, name, display, now), quota);
      case Suspend(id, reason, now) => ok := tm.Suspend(id, reason, now);
      case Resume(id, now) => ok := tm.Resume(id, now);
      case Delete(id, now) => ok := tm.Delete(id, now);
      case SetQuota(id, patch) => ok := tm.UpdateQuota(id, patch);
    }
    if !ok {
      return f;
    }
    f' := tm.SaveRegistry();
    SaveIsGood(tm.Contents(), f');
  }
}
