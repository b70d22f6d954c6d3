/**
`levee restore` on a SQLite database: snapshot the live database to <db>.pre-restore, verify the
backup, stage a copy, remove the journal files of the old database, and rename the copy over it.
Every step may fail. The live database is its file together with a write-ahead log or rollback
journal left beside it, which SQLite replays when it opens the file.
*/
module RestoreSafety {
  import opened Wrappers

  type Bytes = string
  type Files = map<string, Bytes>

  /** SQLite and SHA-256: replaying, checking and digesting files. */
  datatype Engine = Engine(
    replay: (Bytes, Option<Bytes>, Option<Bytes>) -> Bytes,
    sound: Bytes -> bool,
    digest: Bytes -> string,
    line: string -> Bytes,
    recorded: Bytes -> string)

  /**
  What goes wrong in one run: the named steps fail, and the files in `stuck` cannot be removed.
  `lastClose` says that no other process has the database open, so that closing it after the
  snapshot folds the journals into the file.
  */
  datatype Faults = Faults(
    stuck: set<string>, stat: bool, vacuum: bool, checkPre: bool, writeSum: bool, lastClose: bool,
    verify: bool, temp: bool, stage: bool, checkTemp: bool, rename: bool)

  function Pre(db: string): string { db + ".pre-restore" }
  function Sum(path: string): string { path + ".sha256" }
  function Wal(db: string): string { db + "-wal" }
  function Shm(db: string): string { db + "-shm" }
  function Journal(db: string): string { db + "-journal" }

  function Own(db: string): set<string> {
    {db, Pre(db), Sum(Pre(db)), Wal(db), Shm(db), Journal(db)}
  }

  predicate BadPath(p: string) {
    '\0' in p || '\n' in p || '\r' in p
  }

  function At(f: Files, p: string): Option<Bytes> {
    if p in f then Some(f[p]) else None
  }

  /** What a reader sees of a database file with these journals beside it. */
  function Shown(e: Engine, file: Bytes, wal: Option<Bytes>, journal: Option<Bytes>): Bytes {
    if wal.None? && journal.None? then file else e.replay(file, wal, journal)
  }

  function Live(e: Engine, f: Files, db: string): Option<Bytes> {
    if db !in f then None else Some(Shown(e, f[db], At(f, Wal(db)), At(f, Journal(db))))
  }

  // ----- the run as a function on directories

  datatype Step = Step(files: Files, ok: bool)

  function Drop(f: Files, p: string, x: Faults): Files {
    if p in x.stuck then f else f - {p}
  }

  function DropJournals(f: Files, db: string, x: Faults): Files {
    Drop(Drop(Drop(f, Wal(db), x), Shm(db), x), Journal(db), x)
  }

  /** Closing the last connection folds the journals into the file. */
  function Close(e: Engine, f: Files, db: string, x: Faults): Files {
    if x.lastClose && db in f then f[db := Live(e, f, db).value] - {Wal(db), Shm(db), Journal(db)} else f
  }

  /** BackupSQLite into the pre-restore file. */
  function Backup(e: Engine, f: Files, db: string, x: Faults): Step
    requires db in f
  {
    var pre := Pre(db);
    if BadPath(pre) then Step(f, false)
    else if x.vacuum || pre in f then Step(Close(e, f, db, x), false)
    else
      var content := Live(e, f, db).value;
      var f1 := f[pre := content];
      if x.checkPre || !e.sound(content) || x.writeSum then Step(Close(e, f1, db, x), false)
      else Step(Close(e, f1[Sum(pre) := e.line(e.digest(content))], db, x), true)
  }

  /** snapshotPreRestore. */
  function Snapshot(e: Engine, f: Files, db: string, x: Faults): Step {
    if x.stat then Step(f, false)
    else if db !in f then Step(f, true)
    else
      NamesDiffer(db);
      Backup(e, Drop(Drop(f, Pre(db), x), Sum(Pre(db)), x), db, x)
  }

  predicate Verifies(e: Engine, f: Files, input: string, x: Faults) {
    && input in f && Sum(input) in f && !x.verify
    && e.recorded(f[Sum(input)]) == e.digest(f[input]) && e.sound(f[input])
  }

  /** RestoreSQLite with the temporary file `tmp`. */
  function Replace(e: Engine, f: Files, db: string, input: string, tmp: string, x: Faults): Step {
    if !Verifies(e, f, input, x) || x.temp then Step(f, false)
    else
      var staged := f[tmp := f[input]];
      if x.stage || x.checkTemp then Step(Drop(staged, tmp, x), false)
      else
        var bare := DropJournals(staged, db, x);
        if x.rename then Step(Drop(bare, tmp, x), false)
        else Step((bare - {tmp})[db := f[input]], true)
  }

  /** runRestore. */
  function Restore(e: Engine, f: Files, db: string, input: string, tmp: string, x: Faults): Step {
    var s := Snapshot(e, f, db, x);
    if !s.ok then s else Replace(e, s.files, db, input, tmp, x)
  }

  /** What os.CreateTemp gives: a name that nothing has. */
  predicate IsFresh(f: Files, db: string, tmp: string) {
    tmp !in f && tmp !in Own(db)
  }

  // ----- names

  lemma SuffixMatters(db: string, s: string, t: string)
    requires s != t
    ensures db + s != db + t
  {
    assert (db + s)[|db|..] == s && (db + t)[|db|..] == t;
  }

  lemma NamesDiffer(db: string)
    ensures Pre(db) != db && Sum(Pre(db)) != db && Pre(db) != Sum(Pre(db))
    ensures db !in {Wal(db), Shm(db), Journal(db)}
    ensures Pre(db) !in {Wal(db), Shm(db), Journal(db)}
    ensures Sum(Pre(db)) !in {Wal(db), Shm(db), Journal(db)}
    ensures Wal(db) != Shm(db) && Wal(db) != Journal(db) && Shm(db) != Journal(db)
  {
    assert Sum(Pre(db)) == db + ".pre-restore.sha256";
    var suffixes := ["", ".pre-restore", ".pre-restore.sha256", "-wal", "-shm", "-journal"];
    forall i, j | 0 <= i < j < |suffixes| ensures db + suffixes[i] != db + suffixes[j] {
      SuffixMatters(db, suffixes[i], suffixes[j]);
    }
    assert db + suffixes[0] == db && Pre(db) == db + suffixes[1] && Sum(Pre(db)) == db + suffixes[2];
    assert Wal(db) == db + suffixes[3] && Shm(db) == db + suffixes[4] && Journal(db) == db + suffixes[5];
  }

  // ----- the snapshot

  /** Nothing outside the database's own files differs. */
  ghost predicate SameElsewhere(f: Files, g: Files, db: string) {
    forall p | p !in Own(db) :: At(g, p) == At(f, p)
  }

  lemma CloseKeepsLive(e: Engine, f: Files, db: string, x: Faults)
    ensures Live(e, Close(e, f, db, x), db) == Live(e, f, db)
    ensures SameElsewhere(f, Close(e, f, db, x), db)
    ensures forall p | p in {Pre(db), Sum(Pre(db))} :: At(Close(e, f, db, x), p) == At(f, p)
    ensures x.lastClose && db in f ==> At(Close(e, f, db, x), db) == Live(e, f, db)
    ensures !x.lastClose ==> Close(e, f, db, x) == f
  {
    NamesDiffer(db);
  }

  /** Files that do not belong to the live database do not change what it shows. */
  lemma LiveDependsOn(e: Engine, f: Files, g: Files, db: string)
    requires forall p | p in {db, Wal(db), Journal(db)} :: At(g, p) == At(f, p)
    ensures Live(e, g, db) == Live(e, f, db)
  {
    assert At(g, db) == At(f, db) && At(g, Wal(db)) == At(f, Wal(db)) && At(g, Journal(db)) == At(f, Journal(db));
  }

  /** Taking the snapshot leaves the live database and all foreign files alone, failed or not. */
  lemma SnapshotMeans(e: Engine, f: Files, db: string, x: Faults)
    ensures var s := Snapshot(e, f, db, x);
            && Live(e, s.files, db) == Live(e, f, db) && SameElsewhere(f, s.files, db)
            && (s.ok && db in f ==> At(s.files, Pre(db)) == Live(e, f, db))
            && (s.ok && db in f && x.lastClose ==> At(s.files, db) == Live(e, f, db))
            && (db !in f ==> s.files == f)
  {
    if !x.stat && db in f {
      NamesDiffer(db);
      var f0 := Drop(Drop(f, Pre(db), x), Sum(Pre(db)), x);
      LiveDependsOn(e, f, f0, db);
      BackupMeans(e, f0, db, x);
    }
  }

  lemma BackupMeans(e: Engine, f: Files, db: string, x: Faults)
    requires db in f
    ensures var s := Backup(e, f, db, x);
            && Live(e, s.files, db) == Live(e, f, db) && SameElsewhere(f, s.files, db)
            && (s.ok ==> At(s.files, Pre(db)) == Live(e, f, db))
            && (s.ok && x.lastClose ==> At(s.files, db) == Live(e, f, db))
  {
    NamesDiffer(db);
    var f1 := f[Pre(db) := Live(e, f, db).value];
    var f2 := f1[Sum(Pre(db)) := e.line(e.digest(Live(e, f, db).value))];
    LiveDependsOn(e, f, f1, db);
    LiveDependsOn(e, f, f2, db);
    CloseKeepsLive(e, f, db, x);
    CloseKeepsLive(e, f1, db, x);
    CloseKeepsLive(e, f2, db, x);
  }

  // ----- the replacement

  predicate JournalsRemovable(db: string, x: Faults) {
    Wal(db) !in x.stuck && Journal(db) !in x.stuck
  }

  lemma DropJournalsMeans(f: Files, db: string, x: Faults)
    ensures var g := DropJournals(f, db, x);
            && (forall p | p !in {Wal(db), Shm(db), Journal(db)} :: At(g, p) == At(f, p))
            && (JournalsRemovable(db, x) ==> Wal(db) !in g && Journal(db) !in g)
  {
    NamesDiffer(db);
  }

  /** The replacement succeeds with the backup in place, or fails and leaves the database file. */
  lemma ReplaceMeans(e: Engine, f: Files, db: string, input: string, tmp: string, x: Faults)
    requires IsFresh(f, db, tmp)
    ensures var r := Replace(e, f, db, input, tmp, x);
            && (r.ok ==> At(r.files, db) == At(f, input) && input in f)
            && (!r.ok ==> At(r.files, db) == At(f, db))
            && (!r.ok && !x.rename ==> Live(e, r.files, db) == Live(e, f, db))
            && (forall p | p !in {db, Wal(db), Shm(db), Journal(db), tmp} :: At(r.files, p) == At(f, p))
            && (r.ok && JournalsRemovable(db, x) ==> Wal(db) !in r.files && Journal(db) !in r.files)
  {
    NamesDiffer(db);
    if Verifies(e, f, input, x) && !x.temp {
      var staged := f[tmp := f[input]];
      DropJournalsMeans(staged, db, x);
      if x.stage || x.checkTemp {
        LiveDependsOn(e, f, Drop(staged, tmp, x), db);
      }
    }
  }

  // ----- the whole run

  /**
  A successful restore with removable journals shows the backup, keeps the former database in
  the pre-restore file, and changes no foreign file.
  */
  lemma SuccessfulRestore(e: Engine, f: Files, db: string, input: string, tmp: string, x: Faults)
    requires IsFresh(f, db, tmp) && Restore(e, f, db, input, tmp, x).ok
    ensures var g := Restore(e, f, db, input, tmp, x).files;
            && (input !in Own(db) ==> At(g, db) == At(f, input) && input in f)
            && (input !in Own(db) && JournalsRemovable(db, x) ==> Live(e, g, db) == At(f, input))
            && (db in f ==> At(g, Pre(db)) == Live(e, f, db))
            && (forall p | p !in Own(db) && p != tmp :: At(g, p) == At(f, p))
  {
    NamesDiffer(db);
    SnapshotMeans(e, f, db, x);
    var s := Snapshot(e, f, db, x).files;
    assert IsFresh(s, db, tmp) by {
      assert At(s, tmp) == At(f, tmp);
    }
    ReplaceMeans(e, s, db, input, tmp, x);
  }

  // ----- which backups are restored

  /** The backup is there, its recorded digest is its digest, and it passes the integrity check. */
  predicate Genuine(e: Engine, f: Files, input: string) {
    input in f && Sum(input) in f && e.recorded(f[Sum(input)]) == e.digest(f[input]) && e.sound(f[input])
  }

  /** A restore that succeeds restored a backup with the recorded digest that passed the integrity check. */
  lemma RestoredIsGenuine(e: Engine, f: Files, db: string, input: string, tmp: string, x: Faults)
    requires Restore(e, f, db, input, tmp, x).ok && input !in Own(db) && Sum(input) !in Own(db)
    ensures && input in f && Sum(input) in f
            && e.recorded(f[Sum(input)]) == e.digest(f[input]) && e.sound(f[input])
    ensures db in f ==> e.sound(Live(e, f, db).value) && '\0' !in db && '\n' !in db && '\r' !in db
  {
    SnapshotMeans(e, f, db, x);
    var s := Snapshot(e, f, db, x).files;
    assert At(s, input) == At(f, input) && At(s, Sum(input)) == At(f, Sum(input));
    if db in f {
      SnapshotNeeds(e, f, db, x);
    }
  }

  lemma SnapshotNeeds(e: Engine, f: Files, db: string, x: Faults)
    requires Snapshot(e, f, db, x).ok && db in f
    ensures e.sound(Live(e, f, db).value) && '\0' !in db && '\n' !in db && '\r' !in db
  {
    NamesDiffer(db);
    LiveDependsOn(e, f, Drop(Drop(f, Pre(db), x), Sum(Pre(db)), x), db);
    assert forall c | c in db :: c in Pre(db);
  }

  /** A snapshot that fails leaves no sidecar of an earlier one behind. */
  lemma FailedSnapshotHasNoSidecar(e: Engine, f: Files, db: string, x: Faults)
    requires !Snapshot(e, f, db, x).ok && !x.stat && Sum(Pre(db)) !in x.stuck
    ensures Sum(Pre(db)) !in Snapshot(e, f, db, x).files
  {
    NamesDiffer(db);
  }

  /** Every fault that the program looks at fails the run. */
  lemma FaultsFail(e: Engine, f: Files, db: string, input: string, tmp: string, x: Faults)
    requires || x.stat || x.verify || x.temp || x.stage || x.checkTemp || x.rename
             || (db in f && (x.vacuum || x.checkPre || x.writeSum || (Pre(db) in f && Pre(db) in x.stuck)))
    ensures !Restore(e, f, db, input, tmp, x).ok
  {
    NamesDiffer(db);
  }

  /** The staged copy does not stay behind, whether the run succeeds or fails. */
  lemma NoTempLeft(e: Engine, f: Files, db: string, input: string, tmp: string, x: Faults)
    requires IsFresh(f, db, tmp) && tmp !in x.stuck
    ensures tmp !in Restore(e, f, db, input, tmp, x).files
  {
    NamesDiffer(db);
    SnapshotMeans(e, f, db, x);
    assert At(Snapshot(e, f, db, x).files, tmp) == At(f, tmp);
  }

  predicate NoFaults(x: Faults) {
    && x.stuck == {} && !x.stat && !x.vacuum && !x.checkPre && !x.writeSum
    && !x.verify && !x.temp && !x.stage && !x.checkTemp && !x.rename
  }

  /** Without faults the snapshot succeeds exactly when the live database is sound and its path printable. */
  lemma SnapshotSucceedsExactly(e: Engine, f: Files, db: string, x: Faults)
    requires NoFaults(x)
    ensures Snapshot(e, f, db, x).ok <==>
            (db in f ==> e.sound(Live(e, f, db).value) && '\0' !in db && '\n' !in db && '\r' !in db)
  {
    if db in f {
      NamesDiffer(db);
      LiveDependsOn(e, f, Drop(Drop(f, Pre(db), x), Sum(Pre(db)), x), db);
      PrintableExactly(db);
    }
  }

  lemma PrintableExactly(db: string)
    ensures BadPath(Pre(db)) <==> '\0' in db || '\n' in db || '\r' in db
  {
    assert forall c | c in ".pre-restore" :: c != '\0' && c != '\n' && c != '\r';
    assert forall c :: c in Pre(db) <==> c in db || c in ".pre-restore";
  }

  /** Without faults, exactly which inputs outside the database's own files are restored. */
  lemma RestoreSucceedsExactly(e: Engine, f: Files, db: string, input: string, tmp: string, x: Faults)
    requires NoFaults(x) && input !in Own(db) && Sum(input) !in Own(db)
    ensures Restore(e, f, db, input, tmp, x).ok <==>
            && (db in f ==> e.sound(Live(e, f, db).value) && '\0' !in db && '\n' !in db && '\r' !in db)
            && Genuine(e, f, input)
  {
    SnapshotSucceedsExactly(e, f, db, x);
    SnapshotMeans(e, f, db, x);
    var s := Snapshot(e, f, db, x).files;
    assert At(s, input) == At(f, input) && At(s, Sum(input)) == At(f, Sum(input));
  }

  /** The snapshot's own sidecar holds the digest line of the snapshot, and the restore keeps both. */
  lemma SnapshotIsVerifiable(e: Engine, f: Files, db: string, input: string, tmp: string, x: Faults)
    requires IsFresh(f, db, tmp) && db in f && Restore(e, f, db, input, tmp, x).ok
    ensures var g := Restore(e, f, db, input, tmp, x).files;
            && At(g, Pre(db)) == Live(e, f, db)
            && At(g, Sum(Pre(db))) == Some(e.line(e.digest(Live(e, f, db).value)))
  {
    NamesDiffer(db);
    SnapshotMeans(e, f, db, x);
    SnapshotSidecar(e, f, db, x);
    var s := Snapshot(e, f, db, x).files;
    assert At(s, tmp) == At(f, tmp);
    ReplaceMeans(e, s, db, input, tmp, x);
  }

  lemma SnapshotSidecar(e: Engine, f: Files, db: string, x: Faults)
    requires Snapshot(e, f, db, x).ok && db in f
    ensures At(Snapshot(e, f, db, x).files, Sum(Pre(db))) == Some(e.line(e.digest(Live(e, f, db).value)))
  {
    NamesDiffer(db);
    var f0 := Drop(Drop(f, Pre(db), x), Sum(Pre(db)), x);
    LiveDependsOn(e, f, f0, db);
    var content := Live(e, f0, db).value;
    CloseKeepsLive(e, f0[Pre(db) := content][Sum(Pre(db)) := e.line(e.digest(content))], db, x);
  }

  /** So a copy of the snapshot and of its sidecar under another name passes the verification of a later restore. */
  lemma CopyIsGenuine(e: Engine, f: Files, db: string, input: string, tmp: string, x: Faults, h: Files, copy: string)
    requires IsFresh(f, db, tmp) && db in f && Restore(e, f, db, input, tmp, x).ok
    requires forall d {:trigger e.line(d)} :: e.recorded(e.line(d)) == d
    requires var g := Restore(e, f, db, input, tmp, x).files;
             At(h, copy) == At(g, Pre(db)) && At(h, Sum(copy)) == At(g, Sum(Pre(db)))
    ensures Genuine(e, h, copy)
  {
    SnapshotIsVerifiable(e, f, db, input, tmp, x);
    SnapshotNeeds(e, f, db, x);
  }

  /** A restore that fails before the rename leaves the live database as it was. */
  lemma FailureBeforeRename(e: Engine, f: Files, db: string, input: string, tmp: string, x: Faults)
    requires IsFresh(f, db, tmp) && !Restore(e, f, db, input, tmp, x).ok && !x.rename
    ensures Live(e, Restore(e, f, db, input, tmp, x).files, db) == Live(e, f, db)
  {
    SnapshotMeans(e, f, db, x);
    var s := Snapshot(e, f, db, x);
    if s.ok {
      assert IsFresh(s.files, db, tmp) by {
        assert At(s.files, tmp) == At(f, tmp);
      }
      ReplaceMeans(e, s.files, db, input, tmp, x);
    }
  }

  /** The run gets as far as the rename. */
  predicate ReachesRename(e: Engine, f: Files, db: string, input: string, x: Faults) {
    && Snapshot(e, f, db, x).ok && Verifies(e, Snapshot(e, f, db, x).files, input, x)
    && !x.temp && !x.stage && !x.checkTemp
  }

  /** What is left of a journal of the start: nothing once it was folded in or removed. */
  function Left(f: Files, db: string, p: string, x: Faults): Option<Bytes> {
    if p in x.stuck && !(x.lastClose && db in f) then At(f, p) else None
  }

  lemma SnapshotJournals(e: Engine, f: Files, db: string, x: Faults)
    requires Snapshot(e, f, db, x).ok
    ensures var s := Snapshot(e, f, db, x).files;
            && (forall p | p in {Wal(db), Journal(db)} ::
                  At(s, p) == if x.lastClose && db in f then None else At(f, p))
            && (!x.lastClose ==> At(s, db) == At(f, db))
  {
    NamesDiffer(db);
  }

  /** Whether the rename succeeds or not, only the journals that cannot be removed are left. */
  lemma ReplaceJournals(e: Engine, f: Files, db: string, input: string, tmp: string, x: Faults)
    requires IsFresh(f, db, tmp) && Verifies(e, f, input, x) && !x.temp && !x.stage && !x.checkTemp
    ensures var r := Replace(e, f, db, input, tmp, x);
            && r.ok == !x.rename
            && forall p | p in {Wal(db), Journal(db)} :: At(r.files, p) == if p in x.stuck then At(f, p) else None
  {
    NamesDiffer(db);
  }

  /** What is left of the journals after a run that came as far as the rename. */
  lemma RestoreJournals(e: Engine, f: Files, db: string, input: string, tmp: string, x: Faults)
    requires IsFresh(f, db, tmp) && ReachesRename(e, f, db, input, x)
    ensures var g := Restore(e, f, db, input, tmp, x).files;
            At(g, Wal(db)) == Left(f, db, Wal(db), x) && At(g, Journal(db)) == Left(f, db, Journal(db), x)
  {
    SnapshotJournals(e, f, db, x);
    SnapshotMeans(e, f, db, x);
    var s := Snapshot(e, f, db, x).files;
    assert At(s, tmp) == At(f, tmp);
    ReplaceJournals(e, s, db, input, tmp, x);
  }

  /**
  A restore that reports success shows the backup exactly when no journal of the old database is
  left or replaying what is left changes nothing. The program ignores that a removal failed.
  */
  lemma RestoreShownExactly(e: Engine, f: Files, db: string, input: string, tmp: string, x: Faults)
    requires IsFresh(f, db, tmp) && Restore(e, f, db, input, tmp, x).ok && input !in Own(db)
    ensures var g := Restore(e, f, db, input, tmp, x).files;
            var w, j := Left(f, db, Wal(db), x), Left(f, db, Journal(db), x);
            && input in f
            && Live(e, g, db) == Some(Shown(e, f[input], w, j))
            && (Live(e, g, db) == At(f, input) <==>
                  (w.None? && j.None?) || e.replay(f[input], w, j) == f[input])
  {
    SuccessfulRestore(e, f, db, input, tmp, x);
    RestoreJournals(e, f, db, input, tmp, x);
  }

  /**
  A failing rename comes after the journals are gone: the live database is unchanged exactly when
  they had been folded into the file, or the file with the journals that could not be removed
  shows the same. The former state is in the pre-restore file in any case.
  */
  lemma FailureAtRename(e: Engine, f: Files, db: string, input: string, tmp: string, x: Faults)
    requires IsFresh(f, db, tmp) && ReachesRename(e, f, db, input, x) && x.rename && db in f
    ensures var g := Restore(e, f, db, input, tmp, x).files;
            var w, j := Left(f, db, Wal(db), x), Left(f, db, Journal(db), x);
            && (Live(e, g, db) == Live(e, f, db) <==>
                  x.lastClose || Some(Shown(e, f[db], w, j)) == Live(e, f, db))
            && (!x.lastClose ==> Live(e, g, db) == Some(Shown(e, f[db], w, j)))
            && At(g, Pre(db)) == Live(e, f, db)
  {
    NamesDiffer(db);
    SnapshotMeans(e, f, db, x);
    SnapshotJournals(e, f, db, x);
    RestoreJournals(e, f, db, input, tmp, x);
    var s := Snapshot(e, f, db, x).files;
    assert At(s, tmp) == At(f, tmp);
    ReplaceMeans(e, s, db, input, tmp, x);
  }

  function AppendLog(): Engine {
    Engine((d: Bytes, w: Option<Bytes>, j: Option<Bytes>) => if w.Some? then d + w.value else d,
           (b: Bytes) => true, (b: Bytes) => b, (s: string) => s, (b: Bytes) => b)
  }

  const RENAME_FAILS := Faults({}, false, false, false, false, false, false, false, false, false, true)

  /** It does lose data: another process has the database open and its log holds a change. */
  lemma RenameFailureLosesLog(db: string, input: string, tmp: string) returns (f: Files)
    requires !BadPath(Pre(db)) && input !in Own(db) && Sum(input) !in Own(db) && Sum(input) != input
    requires tmp !in Own(db) && tmp != input && tmp != Sum(input)
    ensures IsFresh(f, db, tmp) && ReachesRename(AppendLog(), f, db, input, RENAME_FAILS)
    ensures Live(AppendLog(), Restore(AppendLog(), f, db, input, tmp, RENAME_FAILS).files, db)
            != Live(AppendLog(), f, db)
  {
    NamesDiffer(db);
    f := map[db := "old", Wal(db) := "!", input := "new", Sum(input) := "new"];
    var e := AppendLog();
    SnapshotMeans(e, f, db, RENAME_FAILS);
    var s := Snapshot(e, f, db, RENAME_FAILS).files;
    assert At(s, input) == At(f, input) && At(s, Sum(input)) == At(f, Sum(input));
    assert At(s, db) == Some("old");
    assert Live(e, f, db) == Some("old" + "!");
    FailureAtRename(e, f, db, input, tmp, RENAME_FAILS);
  }

  // ----- undoing a restore

  lemma OkReachesRename(e: Engine, f: Files, db: string, input: string, tmp: string, x: Faults)
    requires Restore(e, f, db, input, tmp, x).ok
    ensures ReachesRename(e, f, db, input, x) && !x.rename
  {
  }

  /**
  Restoring from the pre-restore file itself overwrites that file first, with the database as it
  is: nothing is undone, and what the file held is gone.
  */
  lemma PreRestoreFileUndoesNothing(e: Engine, f: Files, db: string, tmp: string, x: Faults)
    requires IsFresh(f, db, tmp) && db in f && Restore(e, f, db, Pre(db), tmp, x).ok
    ensures var g := Restore(e, f, db, Pre(db), tmp, x).files;
            var w, j := Left(f, db, Wal(db), x), Left(f, db, Journal(db), x);
            && At(g, Pre(db)) == Live(e, f, db)
            && Live(e, g, db) == Some(Shown(e, Live(e, f, db).value, w, j))
            && (w.None? && j.None? ==> Live(e, g, db) == Live(e, f, db))
  {
    NamesDiffer(db);
    SnapshotMeans(e, f, db, x);
    OkReachesRename(e, f, db, Pre(db), tmp, x);
    RestoreJournals(e, f, db, Pre(db), tmp, x);
    var s := Snapshot(e, f, db, x).files;
    assert At(s, tmp) == At(f, tmp);
    ReplaceMeans(e, s, db, Pre(db), tmp, x);
  }

  /**
  A restore is undone by a second one from a copy of the pre-restore file under another name:
  after both, the database shows what it showed before the first, exactly when the second leaves
  no journal behind or replaying what it leaves changes nothing.
  */
  lemma CopyUndoes(e: Engine, f: Files, db: string, input: string, tmp: string, x: Faults,
                   h: Files, copy: string, tmp': string, x': Faults)
    requires IsFresh(f, db, tmp) && db in f && Restore(e, f, db, input, tmp, x).ok
    requires copy !in Own(db) && At(h, copy) == At(Restore(e, f, db, input, tmp, x).files, Pre(db))
    requires IsFresh(h, db, tmp') && Restore(e, h, db, copy, tmp', x').ok
    ensures var w, j := Left(h, db, Wal(db), x'), Left(h, db, Journal(db), x');
            var former := Live(e, f, db).value;
            Live(e, Restore(e, h, db, copy, tmp', x').files, db) == Some(former) <==>
            (w.None? && j.None?) || e.replay(former, w, j) == former
  {
    SuccessfulRestore(e, f, db, input, tmp, x);
    RestoreShownExactly(e, h, db, copy, tmp', x');
  }

  /** A log that cannot be removed and matters: the restore succeeds and shows something else. */
  lemma StuckLogIsReplayed(db: string, input: string, tmp: string) returns (f: Files, x: Faults)
    requires !BadPath(Pre(db)) && input !in Own(db) && Sum(input) !in Own(db) && Sum(input) != input
    requires tmp !in Own(db) && tmp != input && tmp != Sum(input)
    ensures IsFresh(f, db, tmp) && Restore(AppendLog(), f, db, input, tmp, x).ok && input in f
    ensures Live(AppendLog(), Restore(AppendLog(), f, db, input, tmp, x).files, db) != At(f, input)
  {
    NamesDiffer(db);
    f := map[db := "old", Wal(db) := "!", input := "new", Sum(input) := "new"];
    x := RENAME_FAILS.(rename := false, stuck := {Wal(db)});
    var e := AppendLog();
    SnapshotMeans(e, f, db, x);
    var s := Snapshot(e, f, db, x).files;
    assert At(s, input) == At(f, input) && At(s, Sum(input)) == At(f, Sum(input));
    assert ReachesRename(e, f, db, input, x);
    RestoreShownExactly(e, f, db, input, tmp, x);
    assert |"new" + "!"| != |"new"|;
  }

  // ----- the commands as the program runs them

  class Disk {
    var files: Files

    constructor (start: Files)
      ensures files == start
    {
      files := start;
    }

    /** `_ = os.Remove(p)`: a missing file or a failure is ignored. */
    method Remove(p: string, x: Faults)
      modifies this
      ensures files == Drop(old(files), p, x)
    {
      if p !in x.stuck {
        files := files - {p};
      }
    }

    method RemoveJournals(db: string, x: Faults)
      modifies this
      ensures files == DropJournals(old(files), db, x)
    {
      Remove(Wal(db), x);
      Remove(Shm(db), x);
      Remove(Journal(db), x);
    }

    method CloseSource(e: Engine, db: string, x: Faults)
      modifies this
      ensures files == Close(e, old(files), db, x)
    {
      if x.lastClose && db in files {
        files := files[db := Live(e, files, db).value];
        files := files - {Wal(db), Shm(db), Journal(db)};
      }
    }

    method BackupSQLite(e: Engine, db: string, x: Faults) returns (ok: bool)
      requires db in files
      modifies this
      ensures Step(files, ok) == Backup(e, old(files), db, x)
    {
      var pre := Pre(db);
      if BadPath(pre) {
        return false;
      }
      ok := false;
      if !x.vacuum && pre !in files {
        var content := Live(e, files, db).value;
        files := files[pre := content];
        if !x.checkPre && e.sound(content) && !x.writeSum {
          files := files[Sum(pre) := e.line(e.digest(content))];
          ok := true;
        }
      }
      CloseSource(e, db, x);
    }

    method SnapshotPreRestore(e: Engine, db: string, x: Faults) returns (ok: bool)
      modifies this
      ensures Step(files, ok) == Snapshot(e, old(files), db, x)
    {
      if x.stat {
        return false;
      }
      if db !in files {
        return true;
      }
      NamesDiffer(db);
      Remove(Pre(db), x);
      Remove(Sum(Pre(db)), x);
      ok := BackupSQLite(e, db, x);
    }

    method RestoreSQLite(e: Engine, db: string, input: string, tmp: string, x: Faults) returns (ok: bool)
      requires IsFresh(files, db, tmp)
      modifies this
      ensures Step(files, ok) == Replace(e, old(files), db, input, tmp, x)
    {
      if !Verifies(e, files, input, x) || x.temp {
        return false;
      }
      var content := files[input];
      files := files[tmp := content];
      if x.stage || x.checkTemp {
        Remove(tmp, x);
        return false;
      }
      RemoveJournals(db, x);
      if x.rename {
        Remove(tmp, x);
        return false;
      }
      files := (files - {tmp})[db := content];
      ok := true;
    }

    method RunRestore(e: Engine, db: string, input: string, tmp: string, x: Faults) returns (ok: bool)
      requires IsFresh(files, db, tmp)
      modifies this
      ensures Step(files, ok) == Restore(e, old(files), db, input, tmp, x)
    {
      SnapshotMeans(e, files, db, x);
      ok := SnapshotPreRestore(e, db, x);
      if ok {
        assert At(files, tmp) == At(old(files), tmp);
        ok := RestoreSQLite(e, db, input, tmp, x);
      }
    }
  }
}
