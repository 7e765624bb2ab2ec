/** The schema migrator of backend/migrator/migrator.go with the advisory lock of
    backend/store/advisory_lock.go: one run, and many runs by many replicas, interleaved,
    crashing anywhere and losing the lock's session at any time. */
module Migrator {
  import opened Options
  import opened Results
  import opened AuditLog
  import opened Strings

  // ---------------------------------------------------------------- versions and files

  datatype Version = Version(major: nat, minor: nat, patch: nat)

  predicate Less(a: Version, b: Version) {
    a.major < b.major || (a.major == b.major && (a.minor < b.minor || (a.minor == b.minor && a.patch < b.patch)))
  }

  predicate LessEq(a: Version, b: Version) { !Less(b, a) }

  predicate Increasing(vs: seq<Version>) { forall i, j :: 0 <= i < j < |vs| ==> Less(vs[i], vs[j]) }

  /** Semantic versions compare at the first part in which they differ (section 11 of Semantic
      Versioning 2.0.0). */
  lemma {:induction false} LessIsLexicographic(a: Version, b: Version)
    ensures var x, y := [a.major, a.minor, a.patch], [b.major, b.minor, b.patch];
            Less(a, b) <==> exists k :: 0 <= k < 3 && x[..k] == y[..k] && x[k] < y[k]
  {
    var x, y := [a.major, a.minor, a.patch], [b.major, b.minor, b.patch];
    assert x[..1] == [a.major] && y[..1] == [b.major];
    assert x[..2] == [a.major, a.minor] && y[..2] == [b.major, b.minor];
    if Less(a, b) {
      var k := if a.major != b.major then 0 else if a.minor != b.minor then 1 else 2;
      assert x[..k] == y[..k] && x[k] < y[k];
    }
    if exists k :: 0 <= k < 3 && x[..k] == y[..k] && x[k] < y[k] {
      var k :| 0 <= k < 3 && x[..k] == y[..k] && x[k] < y[k];
      if k >= 1 { assert x[..k][0] == y[..k][0]; }
      if k == 2 { assert x[..k][1] == y[..k][1]; }
    }
  }

  datatype File = File(version: Version, path: string)

  function Versions(files: seq<File>): (vs: seq<Version>)
    ensures |vs| == |files| && forall i :: 0 <= i < |files| ==> vs[i] == files[i].version
  {
    seq(|files|, i requires 0 <= i < |files| => files[i].version)
  }

  /** Sorted by version, no two files with the same version. */
  predicate SortedFiles(files: seq<File>) { Increasing(Versions(files)) }

  /** How many of the sorted files a database at version `v` already has. */
  function UpTo(files: seq<File>, v: Version): (n: nat)
    ensures n <= |files|
  {
    if files == [] then 0
    else if LessEq(files[|files|-1].version, v) then |files|
    else UpTo(files[..|files|-1], v)
  }

  lemma {:induction false} UpToIs(files: seq<File>, v: Version)
    requires SortedFiles(files)
    ensures forall i :: 0 <= i < |files| ==> (i < UpTo(files, v) <==> LessEq(files[i].version, v))
  {
    if files != [] && !LessEq(files[|files|-1].version, v) {
      var fs := files[..|files|-1];
      assert forall i :: 0 <= i < |fs| ==> Versions(fs)[i] == Versions(files)[i];
      UpToIs(fs, v);
      forall i | 0 <= i < |files| ensures i < UpTo(files, v) <==> LessEq(files[i].version, v) {
        if i < |files| - 1 { assert fs[i] == files[i]; }
      }
    } else if files != [] {
      var vs := Versions(files);
      forall i | 0 <= i < |files| ensures LessEq(files[i].version, v) {
        assert i < |files| - 1 ==> Less(vs[i], vs[|files|-1]);
      }
    }
  }

  // ---------------------------------------------------------------- the database

  /** `principal` tells an initialised database; `history` is instance_change_history in id
      order (its version column is unique); `applied` logs the migration files whose statements
      have been committed. */
  datatype Db = Db(principal: bool, history: seq<Version>, applied: seq<File>, audit: Table)

  /** executeMigration for a numbered file: the statement and the record commit together, and a
      version already recorded makes the insert, hence the transaction, fail. */
  function CommitFile(db: Db, f: File): Result<Db> {
    if f.version in db.history then Error
    else Ok(db.(history := db.history + [f.version], applied := db.applied + [f]))
  }

  /** executeMigration of the latest schema; it fails on a database that has its tables already. */
  function CommitInit(db: Db, latest: Version): Result<Db> {
    if db.principal then Error else Ok(db.(principal := true, history := [latest]))
  }

  // ---------------------------------------------------------------- runs as steps

  /** Where a replica's MigrateSchema is. */
  datatype Pc =
    | Idle
    | Waiting                                           // for the advisory lock
    | Locked                                            // lock acquired, database not read yet
    | Migrating(from: Version, next: nat)               // in the loop, at files[next]
    | GoRunning(from: Version, next: nat, lastID: int)  // in files[next]'s Go migration
    | GoDone(from: Version, next: nat)                  // its Go migration returned
    | Returned(ok: bool)                                // the deferred release may be pending

  /** The migration files, in order; how many of them each replica's binary embeds; the version
      with a Go migration, its user map as a rewriting, and its batch size. */
  datatype Config = Config(files: seq<File>, ships: int -> nat, goVersion: Version, rewrite: Rewrite, batchSize: nat)
  {
    ghost predicate Valid() {
      && SortedFiles(files) && files != [] && batchSize >= 1 && SelectsAllChanges(rewrite)
      && (forall r :: 1 <= ships(r) <= |files|)
    }
  }

  datatype Lock = Free | HeldBy(r: int)

  datatype State = State(db: Db, lock: Lock, pcs: map<int, Pc>)

  function PcOf(s: State, r: int): Pc { if r in s.pcs then s.pcs[r] else Idle }

  function Goto(s: State, r: int, pc: Pc): State { s.(pcs := s.pcs[r := pc]) }

  datatype Action =
    | Start(r: int) | Acquire(r: int) | Initialise(r: int) | ReadVersion(r: int)
    | Skip(r: int) | BeginGo(r: int) | GoBatch(r: int) | RunSql(r: int) | Finish(r: int)
    | Fail(r: int) | Release(r: int) | Crash(r: int) | LoseLock(r: int)

  /** The state after an action, if it can happen. A commit that the database refuses returns
      the error; any statement may fail (`Fail`); a crash ends the process and its sessions; the
      lock's own session may end while the run goes on (`LoseLock`). */
  function Next(c: Config, s: State, a: Action): Option<State> {
    var pc := PcOf(s, a.r);
    match a
    case Start(r) =>
      if (pc.Idle? || pc.Returned?) && s.lock != HeldBy(r) then Some(Goto(s, r, Waiting)) else None
    case Acquire(r) =>
      if pc.Waiting? && s.lock.Free? then Some(Goto(s, r, Locked).(lock := HeldBy(r))) else None
    case Initialise(r) =>
      if !pc.Locked? || c.ships(r) < 1 || c.ships(r) > |c.files| then None
      else (match CommitInit(s.db, c.files[c.ships(r)-1].version)
            case Ok(db) => Some(Goto(s, r, Returned(true)).(db := db))
            case Error => Some(Goto(s, r, Returned(false))))
    case ReadVersion(r) =>
      if !pc.Locked? || !s.db.principal then None
      else if s.db.history == [] then Some(Goto(s, r, Returned(false)))
      else Some(Goto(s, r, Migrating(s.db.history[|s.db.history|-1], 0)))
    case Skip(r) =>
      if pc.Migrating? && pc.next < c.ships(r) && pc.next < |c.files| && LessEq(c.files[pc.next].version, pc.from)
      then Some(Goto(s, r, Migrating(pc.from, pc.next + 1))) else None
    case BeginGo(r) =>
      if pc.Migrating? && pc.next < c.ships(r) && pc.next < |c.files| && !LessEq(c.files[pc.next].version, pc.from)
         && c.files[pc.next].version == c.goVersion
      then Some(Goto(s, r, GoRunning(pc.from, pc.next, 0))) else None
    case GoBatch(r) =>
      if !pc.GoRunning? then None
      else
        var b := BatchStep(s.db.audit, c.rewrite, pc.lastID, c.batchSize);
        if b.done then Some(Goto(s, r, GoDone(pc.from, pc.next)))
        else Some(Goto(s, r, GoRunning(pc.from, pc.next, b.maxID)).(db := s.db.(audit := b.rows)))
    case RunSql(r) =>
      if !(pc.GoDone? || (pc.Migrating? && pc.next < |c.files| && c.files[pc.next].version != c.goVersion))
         || pc.next >= c.ships(r) || pc.next >= |c.files| || LessEq(c.files[pc.next].version, pc.from) then None
      else (match CommitFile(s.db, c.files[pc.next])
            case Ok(db) => Some(Goto(s, r, Migrating(pc.from, pc.next + 1)).(db := db))
            case Error => Some(Goto(s, r, Returned(false))))
    case Finish(r) =>
      if pc.Migrating? && pc.next == c.ships(r) then Some(Goto(s, r, Returned(true))) else None
    case Fail(r) => if pc.Idle? || pc.Returned? then None else Some(Goto(s, r, Returned(false)))
    case Release(r) => if pc.Returned? && s.lock == HeldBy(r) then Some(s.(lock := Free)) else None
    case Crash(r) => Some(Goto(s, r, Idle).(lock := if s.lock == HeldBy(r) then Free else s.lock))
    case LoseLock(r) => if s.lock == HeldBy(r) then Some(s.(lock := Free)) else None
  }

  function Exec(c: Config, s: State, actions: seq<Action>): Option<State>
    decreases |actions|
  {
    if actions == [] then Some(s)
    else
      match Next(c, s, actions[0])
      case None => None
      case Some(s') => Exec(c, s', actions[1..])
  }

  // ---------------------------------------------------------------- what holds throughout

  /** No run in progress; a database never initialised, or one with an increasing history. */
  ghost predicate Initial(s: State) {
    && s.lock.Free? && s.pcs == map[] && s.db.applied == []
    && (if s.db.principal then Increasing(s.db.history) else s.db.history == [])
  }

  function LastOf(vs: seq<Version>): Version requires vs != [] { vs[|vs|-1] }

  /** The history before any numbered file was applied: the starting one, or the initialisation. */
  ghost function Base(start: Db, db: Db): seq<Version> {
    if start.principal then start.history else if db.history == [] then [] else db.history[..1]
  }

  /** The history is the base followed by the files above it, in order and each once, up to the
      version the database is at; exactly those files were applied. */
  ghost predicate HistoryOk(c: Config, start: Db, db: Db) {
    var base := Base(start, db);
    if db.history == [] then db.applied == [] && (start.principal ==> db.principal && start.history == [])
    else
      && db.principal && base != [] && base <= db.history && Increasing(base)
      && (!start.principal ==> exists i :: 0 <= i < |c.files| && base[0] == c.files[i].version)
      && var lo, hi := UpTo(c.files, LastOf(base)), UpTo(c.files, LastOf(db.history));
         lo <= hi && db.applied == c.files[lo..hi] && db.history == base + Versions(c.files[lo..hi])
  }

  ghost predicate PcOk(c: Config, start: Db, db: Db, r: int, pc: Pc) {
    match pc
    case Migrating(from, next) => AtFile(c, start, db, r, from, next)
    case GoRunning(from, next, _) => AtFile(c, start, db, r, from, next)
    case GoDone(from, next) => AtFile(c, start, db, r, from, next)
    case Returned(ok) => ok ==> db.history != [] && UpTo(c.files, LastOf(db.history)) >= c.ships(r)
    case _ => true
  }

  /** A run that read version `from` and stands at files[next] has every earlier file behind it. */
  ghost predicate AtFile(c: Config, start: Db, db: Db, r: int, from: Version, next: nat) {
    && db.history != [] && Base(start, db) != [] && next <= c.ships(r)
    && LessEq(LastOf(Base(start, db)), from) && LessEq(from, LastOf(db.history))
    && next <= UpTo(c.files, LastOf(db.history))
  }

  ghost predicate Inv(c: Config, start: Db, s: State) {
    && HistoryOk(c, start, s.db)
    && (forall r :: r in s.pcs ==> PcOk(c, start, s.db, r, s.pcs[r]))
  }

  lemma {:induction false} LessTransitive(u: Version, v: Version, w: Version)
    ensures LessEq(u, v) && LessEq(v, w) ==> LessEq(u, w)
    ensures Less(u, v) && LessEq(v, w) ==> Less(u, w)
    ensures LessEq(u, v) && Less(v, w) ==> Less(u, w)
  {
  }

  lemma {:induction false} UpToMonotone(files: seq<File>, v: Version, w: Version)
    requires SortedFiles(files) && LessEq(v, w)
    ensures UpTo(files, v) <= UpTo(files, w)
  {
    UpToIs(files, v);
    UpToIs(files, w);
    var n := UpTo(files, v);
    if n > 0 { LessTransitive(files[n-1].version, v, w); }
  }

  /** A database at the version of files[k] has k + 1 files behind it. */
  lemma UpToFile(files: seq<File>, k: nat)
    requires SortedFiles(files) && k < |files|
    ensures UpTo(files, files[k].version) == k + 1
  {
    UpToIs(files, files[k].version);
    var vs := Versions(files);
    assert vs[k] == files[k].version;
    forall i | k < i < |files| ensures !LessEq(files[i].version, files[k].version) {
      assert Less(vs[k], vs[i]);
    }
  }

  lemma {:induction false} IncreasingLast(vs: seq<Version>, v: Version)
    requires Increasing(vs) && vs != [] && v in vs
    ensures LessEq(v, LastOf(vs))
  {
    var i :| 0 <= i < |vs| && vs[i] == v;
    assert i < |vs| - 1 ==> Less(vs[i], vs[|vs|-1]);
  }

  lemma {:induction false} IncreasingAppend(vs: seq<Version>, v: Version)
    requires Increasing(vs) && (vs != [] ==> Less(LastOf(vs), v))
    ensures Increasing(vs + [v])
  {
    var ws := vs + [v];
    forall i, j | 0 <= i < j < |ws| ensures Less(ws[i], ws[j]) {
      if j == |vs| {
        IncreasingLast(vs, vs[i]);
        LessTransitive(vs[i], LastOf(vs), v);
      }
    }
  }

  /** What HistoryOk says about the recorded versions: they increase. */
  lemma {:induction false} HistoryIncreases(c: Config, start: Db, db: Db)
    requires c.Valid() && HistoryOk(c, start, db)
    ensures Increasing(db.history)
  {
    if db.history != [] {
      var base := Base(start, db);
      var lo, hi := UpTo(c.files, LastOf(base)), UpTo(c.files, LastOf(db.history));
      UpToIs(c.files, LastOf(base));
      TailIncreases(c.files, base, lo, hi);
    }
  }

  lemma {:induction false} TailIncreases(files: seq<File>, base: seq<Version>, lo: nat, hi: nat)
    requires SortedFiles(files) && lo <= hi <= |files| && Increasing(base) && base != []
    requires forall i :: lo <= i < |files| ==> Less(LastOf(base), files[i].version)
    ensures Increasing(base + Versions(files[lo..hi]))
    decreases hi
  {
    if lo < hi {
      TailIncreases(files, base, lo, hi - 1);
      TailAppend(files, base, lo, hi - 1);
    } else {
      assert base + Versions(files[lo..hi]) == base;
    }
  }

  lemma {:induction false} TailAppend(files: seq<File>, base: seq<Version>, lo: nat, hi: nat)
    requires SortedFiles(files) && lo <= hi < |files| && base != [] && Less(LastOf(base), files[lo].version)
    requires Increasing(base + Versions(files[lo..hi]))
    ensures Increasing(base + Versions(files[lo..hi+1]))
  {
    AddFile(files, base, lo, hi);
    TailLast(files, base, lo, hi);
    IncreasingAppend(base + Versions(files[lo..hi]), files[hi].version);
  }

  /** The versions up to a file end below it. */
  lemma {:induction false} TailLast(files: seq<File>, base: seq<Version>, lo: nat, hi: nat)
    requires SortedFiles(files) && lo <= hi < |files| && base != []
    requires Less(LastOf(base), files[lo].version)
    ensures Less(LastOf(base + Versions(files[lo..hi])), files[hi].version)
  {
    var vs := base + Versions(files[lo..hi]);
    if lo < hi {
      assert LastOf(vs) == Versions(files)[hi-1] && Versions(files)[hi] == files[hi].version;
    } else {
      assert vs == base;
    }
  }

  lemma {:induction false} AddFile(files: seq<File>, base: seq<Version>, lo: nat, hi: nat)
    requires lo <= hi < |files|
    ensures files[lo..hi+1] == files[lo..hi] + [files[hi]]
    ensures base + Versions(files[lo..hi+1]) == base + Versions(files[lo..hi]) + [files[hi].version]
  {
    assert files[lo..hi+1] == files[lo..hi] + [files[hi]];
    assert Versions(files[lo..hi+1]) == Versions(files[lo..hi]) + [files[hi].version];
  }

  /** The database moved on: history grew past the same base. */
  ghost predicate MovesOn(start: Db, db: Db, db': Db) {
    && db.history != [] && db'.history != [] && Base(start, db) == Base(start, db')
    && LessEq(LastOf(db.history), LastOf(db'.history))
  }

  /** The other replicas' claims survive. */
  lemma {:induction false} PcOkMovesOn(c: Config, start: Db, db: Db, db': Db, r: int, pc: Pc)
    requires c.Valid() && MovesOn(start, db, db') && PcOk(c, start, db, r, pc)
    ensures PcOk(c, start, db', r, pc)
  {
    UpToMonotone(c.files, LastOf(db.history), LastOf(db'.history));
    if pc.Migrating? || pc.GoRunning? || pc.GoDone? {
      LessTransitive(pc.from, LastOf(db.history), LastOf(db'.history));
    }
  }

  /** The heart of it: a run standing at a file above the version it read commits that file only
      if it is the next one the database lacks. */
  lemma {:induction false} CommitIsNext(c: Config, start: Db, db: Db, r: int, from: Version, next: nat)
    requires c.Valid() && HistoryOk(c, start, db) && AtFile(c, start, db, r, from, next)
    requires next < |c.files| && !LessEq(c.files[next].version, from)
    ensures CommitFile(db, c.files[next]).Ok? <==> next == UpTo(c.files, LastOf(db.history))
  {
    var base, v := Base(start, db), c.files[next].version;
    var lo, hi := UpTo(c.files, LastOf(base)), UpTo(c.files, LastOf(db.history));
    UpToIs(c.files, LastOf(base));
    LessTransitive(v, LastOf(base), from);
    assert lo <= next;
    if next < hi {
      FileRecorded(c.files, base, lo, hi, next);
    } else {
      HistoryIncreases(c, start, db);
      NotRecorded(c.files, db.history, next);
    }
  }

  lemma {:induction false} FileRecorded(files: seq<File>, base: seq<Version>, lo: nat, hi: nat, next: nat)
    requires lo <= next < hi <= |files|
    ensures files[next].version in base + Versions(files[lo..hi])
  {
    assert Versions(files[lo..hi])[next - lo] == files[next].version;
    assert (base + Versions(files[lo..hi]))[|base| + next - lo] == files[next].version;
  }

  /** A file above the last recorded version is not recorded. */
  lemma {:induction false} NotRecorded(files: seq<File>, history: seq<Version>, next: nat)
    requires SortedFiles(files) && Increasing(history) && history != [] && UpTo(files, LastOf(history)) <= next < |files|
    ensures files[next].version !in history
  {
    UpToIs(files, LastOf(history));
    if files[next].version in history { IncreasingLast(history, files[next].version); }
  }

  /** The next file the database lacks, recorded and applied. */
  lemma {:induction false} HistoryGrows(c: Config, start: Db, db: Db, next: nat)
    requires c.Valid() && HistoryOk(c, start, db) && db.history != []
    requires next < |c.files| && next == UpTo(c.files, LastOf(db.history))
    ensures var f := c.files[next];
            var d := db.(history := db.history + [f.version], applied := db.applied + [f]);
            HistoryOk(c, start, d) && Base(start, d) == Base(start, db) && UpTo(c.files, LastOf(d.history)) == next + 1
  {
    var base, f := Base(start, db), c.files[next];
    var d := db.(history := db.history + [f.version], applied := db.applied + [f]);
    UpToFile(c.files, next);
    AddFile(c.files, base, UpTo(c.files, LastOf(base)), next);
    assert Base(start, d) == base;
  }

  lemma {:induction false} CommitKeepsHistory(c: Config, start: Db, db: Db, r: int, from: Version, next: nat)
    requires c.Valid() && HistoryOk(c, start, db) && AtFile(c, start, db, r, from, next)
    requires next < |c.files| && !LessEq(c.files[next].version, from)
    ensures var d := CommitFile(db, c.files[next]);
            d.Ok? ==> HistoryOk(c, start, d.value) && MovesOn(start, db, d.value)
                      && UpTo(c.files, LastOf(d.value.history)) == next + 1
  {
    CommitIsNext(c, start, db, r, from, next);
    if CommitFile(db, c.files[next]).Ok? {
      HistoryGrows(c, start, db, next);
      UpToIs(c.files, LastOf(db.history));
    }
  }

  lemma {:induction false} InitKeepsHistory(c: Config, start: Db, db: Db, r: int)
    requires c.Valid() && HistoryOk(c, start, db)
    ensures var d := CommitInit(db, c.files[c.ships(r)-1].version);
            d.Ok? ==> HistoryOk(c, start, d.value) && db.history == [] && UpTo(c.files, LastOf(d.value.history)) >= c.ships(r)
  {
    var d := CommitInit(db, c.files[c.ships(r)-1].version);
    if d.Ok? {
      UpToFile(c.files, c.ships(r) - 1);
      var lo := UpTo(c.files, LastOf(d.value.history));
      assert Versions(c.files[lo..lo]) == [];
      assert d.value.history == d.value.history[..1];
    }
  }

  // ---------------------------------------------------------------- every step keeps it

  /** A step that leaves the database alone. */
  lemma {:induction false} QuietStep(c: Config, start: Db, s: State, r: int, pc: Pc, lock: Lock)
    requires Inv(c, start, s) && PcOk(c, start, s.db, r, pc)
    ensures Inv(c, start, Goto(s, r, pc).(lock := lock))
  {
  }

  lemma {:induction false} MovingStep(c: Config, start: Db, s: State, r: int, pc: Pc, db: Db)
    requires c.Valid() && Inv(c, start, s) && MovesOn(start, s.db, db)
    requires HistoryOk(c, start, db) && PcOk(c, start, db, r, pc)
    ensures Inv(c, start, Goto(s, r, pc).(db := db))
  {
    forall q | q in s.pcs && q != r ensures PcOk(c, start, db, q, s.pcs[q]) {
      PcOkMovesOn(c, start, s.db, db, q, s.pcs[q]);
    }
  }

  lemma {:induction false} FirstVersionKeepsPc(c: Config, start: Db, db: Db, db': Db, r: int, pc: Pc)
    requires db.history == [] && PcOk(c, start, db, r, pc)
    ensures PcOk(c, start, db', r, pc)
  {
  }

  lemma {:induction false} FirstVersionKeepsPcs(c: Config, start: Db, s: State, db: Db)
    requires Inv(c, start, s) && s.db.history == []
    ensures forall q :: q in s.pcs ==> PcOk(c, start, db, q, s.pcs[q])
  {
    forall q | q in s.pcs ensures PcOk(c, start, db, q, s.pcs[q]) {
      FirstVersionKeepsPc(c, start, s.db, db, q, s.pcs[q]);
    }
  }

  lemma {:induction false} InitCommits(c: Config, start: Db, s: State, r: int, db: Db)
    requires c.Valid() && Inv(c, start, s) && CommitInit(s.db, c.files[c.ships(r)-1].version) == Ok(db)
    ensures Inv(c, start, Goto(s, r, Returned(true)).(db := db))
  {
    InitKeepsHistory(c, start, s.db, r);
    FirstVersionKeepsPcs(c, start, s, db);
    assert PcOk(c, start, db, r, Returned(true));
  }

  lemma {:induction false} InitialiseKeeps(c: Config, start: Db, s: State, r: int)
    requires c.Valid() && Inv(c, start, s) && Next(c, s, Initialise(r)).Some?
    ensures Inv(c, start, Next(c, s, Initialise(r)).value)
  {
    match CommitInit(s.db, c.files[c.ships(r)-1].version)
    case Ok(db) => InitCommits(c, start, s, r, db);
    case Error => QuietStep(c, start, s, r, Returned(false), s.lock);
  }

  lemma {:induction false} CommitAdvances(c: Config, start: Db, s: State, r: int, from: Version, next: nat)
    requires c.Valid() && Inv(c, start, s) && AtFile(c, start, s.db, r, from, next)
    requires next < |c.files| && next < c.ships(r) && !LessEq(c.files[next].version, from)
    ensures var d := CommitFile(s.db, c.files[next]);
            d.Ok? ==> Inv(c, start, Goto(s, r, Migrating(from, next + 1)).(db := d.value))
  {
    CommitKeepsHistory(c, start, s.db, r, from, next);
    var d := CommitFile(s.db, c.files[next]);
    if d.Ok? {
      LessTransitive(from, LastOf(s.db.history), LastOf(d.value.history));
      MovingStep(c, start, s, r, Migrating(from, next + 1), d.value);
    }
  }

  /** What it takes to run a file's statement. */
  predicate CanRunSql(c: Config, pc: Pc, r: int) {
    (pc.GoDone? || (pc.Migrating? && pc.next < |c.files| && c.files[pc.next].version != c.goVersion))
    && pc.next < c.ships(r) && pc.next < |c.files| && !LessEq(c.files[pc.next].version, pc.from)
  }

  lemma {:induction false} RunSqlIs(c: Config, s: State, r: int)
    requires Next(c, s, RunSql(r)).Some?
    ensures var pc := PcOf(s, r);
            CanRunSql(c, pc, r) &&
            Next(c, s, RunSql(r)).value ==
              match CommitFile(s.db, c.files[pc.next])
              case Ok(db) => Goto(s, r, Migrating(pc.from, pc.next + 1)).(db := db)
              case Error => Goto(s, r, Returned(false))
  {
  }

  lemma {:induction false} StandsAtFile(c: Config, start: Db, db: Db, r: int, pc: Pc)
    requires PcOk(c, start, db, r, pc) && CanRunSql(c, pc, r)
    ensures AtFile(c, start, db, r, pc.from, pc.next)
  {
  }

  lemma {:induction false} RunSqlKeeps(c: Config, start: Db, s: State, r: int)
    requires c.Valid() && Inv(c, start, s) && Next(c, s, RunSql(r)).Some?
    ensures Inv(c, start, Next(c, s, RunSql(r)).value)
  {
    RunSqlIs(c, s, r);
    var pc := PcOf(s, r);
    assert r in s.pcs && PcOk(c, start, s.db, r, pc);
    StandsAtFile(c, start, s.db, r, pc);
    SqlStepKeeps(c, start, s, r, pc.from, pc.next);
  }

  lemma {:induction false} SqlStepKeeps(c: Config, start: Db, s: State, r: int, from: Version, next: nat)
    requires c.Valid() && Inv(c, start, s) && AtFile(c, start, s.db, r, from, next)
    requires next < |c.files| && next < c.ships(r) && !LessEq(c.files[next].version, from)
    ensures match CommitFile(s.db, c.files[next])
            case Ok(db) => Inv(c, start, Goto(s, r, Migrating(from, next + 1)).(db := db))
            case Error => Inv(c, start, Goto(s, r, Returned(false)))
  {
    match CommitFile(s.db, c.files[next])
    case Ok(_) => CommitAdvances(c, start, s, r, from, next);
    case Error => QuietStep(c, start, s, r, Returned(false), s.lock);
  }

  /** A batch touches the audit log only. */
  lemma {:induction false} GoBatchKeeps(c: Config, start: Db, s: State, r: int)
    requires c.Valid() && Inv(c, start, s) && Next(c, s, GoBatch(r)).Some?
    ensures Inv(c, start, Next(c, s, GoBatch(r)).value)
  {
    var pc := PcOf(s, r);
    assert r in s.pcs && PcOk(c, start, s.db, r, pc);
    var b := BatchStep(s.db.audit, c.rewrite, pc.lastID, c.batchSize);
    if b.done {
      QuietStep(c, start, s, r, GoDone(pc.from, pc.next), s.lock);
    } else {
      var db := s.db.(audit := b.rows);
      assert Base(start, db) == Base(start, s.db);
      MovingStep(c, start, s, r, GoRunning(pc.from, pc.next, b.maxID), db);
    }
  }

  lemma {:induction false} SkipKeeps(c: Config, start: Db, s: State, r: int)
    requires c.Valid() && Inv(c, start, s) && Next(c, s, Skip(r)).Some?
    ensures Inv(c, start, Next(c, s, Skip(r)).value)
  {
    var pc := PcOf(s, r);
    assert PcOk(c, start, s.db, r, pc);
    UpToIs(c.files, LastOf(s.db.history));
    LessTransitive(c.files[pc.next].version, pc.from, LastOf(s.db.history));
    QuietStep(c, start, s, r, Migrating(pc.from, pc.next + 1), s.lock);
  }

  lemma {:induction false} BaseBelow(c: Config, start: Db, db: Db)
    requires c.Valid() && HistoryOk(c, start, db) && db.history != []
    ensures Base(start, db) != [] && LessEq(LastOf(Base(start, db)), LastOf(db.history))
  {
    var base := Base(start, db);
    HistoryIncreases(c, start, db);
    assert LastOf(base) == db.history[|base|-1];
    IncreasingLast(db.history, LastOf(base));
  }

  lemma {:induction false} ReadVersionKeeps(c: Config, start: Db, s: State, r: int)
    requires c.Valid() && Inv(c, start, s) && Next(c, s, ReadVersion(r)).Some?
    ensures Inv(c, start, Next(c, s, ReadVersion(r)).value)
  {
    if s.db.history != [] {
      BaseBelow(c, start, s.db);
      QuietStep(c, start, s, r, Migrating(LastOf(s.db.history), 0), s.lock);
    } else {
      QuietStep(c, start, s, r, Returned(false), s.lock);
    }
  }

  lemma {:induction false} LockStepsKeep(c: Config, start: Db, s: State, a: Action)
    requires Inv(c, start, s) && Next(c, s, a).Some?
    requires a.Start? || a.Acquire? || a.Fail? || a.Release? || a.Crash? || a.LoseLock?
    ensures Inv(c, start, Next(c, s, a).value)
  {
    var s' := Next(c, s, a).value;
    LockStepIs(c, s, a);
    forall q | q in s'.pcs ensures PcOk(c, start, s.db, q, s'.pcs[q]) {
      if !Quiet(s'.pcs[q]) { assert q in s.pcs && PcOk(c, start, s.db, q, s.pcs[q]); }
    }
  }

  predicate Quiet(pc: Pc) { pc.Idle? || pc.Waiting? || pc.Locked? || pc == Returned(false) }

  lemma {:induction false} LockStepIs(c: Config, s: State, a: Action)
    requires Next(c, s, a).Some? && (a.Start? || a.Acquire? || a.Fail? || a.Release? || a.Crash? || a.LoseLock?)
    ensures var s' := Next(c, s, a).value;
            s'.db == s.db && forall q :: q in s'.pcs ==> Quiet(s'.pcs[q]) || (q in s.pcs && s'.pcs[q] == s.pcs[q])
  {
  }

  lemma {:induction false} FinishKeeps(c: Config, start: Db, s: State, a: Action)
    requires c.Valid() && Inv(c, start, s) && Next(c, s, a).Some? && (a.Finish? || a.BeginGo?)
    ensures Inv(c, start, Next(c, s, a).value)
  {
    var pc := PcOf(s, a.r);
    assert PcOk(c, start, s.db, a.r, pc);
    if a.Finish? {
      QuietStep(c, start, s, a.r, Returned(true), s.lock);
    } else {
      QuietStep(c, start, s, a.r, GoRunning(pc.from, pc.next, 0), s.lock);
    }
  }

  lemma {:induction false} StepKeeps(c: Config, start: Db, s: State, a: Action)
    requires c.Valid() && Inv(c, start, s) && Next(c, s, a).Some?
    ensures Inv(c, start, Next(c, s, a).value)
  {
    match a
    case Initialise(r) => InitialiseKeeps(c, start, s, r);
    case RunSql(r) => RunSqlKeeps(c, start, s, r);
    case GoBatch(r) => GoBatchKeeps(c, start, s, r);
    case Skip(r) => SkipKeeps(c, start, s, r);
    case ReadVersion(r) => ReadVersionKeeps(c, start, s, r);
    case Finish(_) => FinishKeeps(c, start, s, a);
    case BeginGo(_) => FinishKeeps(c, start, s, a);
    case _ => LockStepsKeep(c, start, s, a);
  }

  lemma {:induction false} ExecKeeps(c: Config, start: Db, s: State, actions: seq<Action>)
    requires c.Valid() && Inv(c, start, s) && Exec(c, s, actions).Some?
    ensures Inv(c, start, Exec(c, s, actions).value)
    decreases |actions|
  {
    if actions != [] {
      StepKeeps(c, start, s, actions[0]);
      ExecKeeps(c, start, Next(c, s, actions[0]).value, actions[1..]);
    }
  }

  lemma {:induction false} InitialInv(c: Config, s: State)
    requires c.Valid() && Initial(s)
    ensures Inv(c, s.db, s)
  {
    if s.db.history != [] {
      var lo := UpTo(c.files, LastOf(s.db.history));
      assert Versions(c.files[lo..lo]) == [];
    }
  }

  /** Whatever replicas do, wherever they crash and even when the lock's session is lost under
      them: the recorded versions increase; the files applied are those above the starting
      version up to the recorded one, in order, each once; and a run that returned without error
      left at least its own latest version. */
  lemma {:induction false} MigrationsAreSafe(c: Config, s: State, actions: seq<Action>)
    requires c.Valid() && Initial(s) && Exec(c, s, actions).Some?
    ensures var e := Exec(c, s, actions).value;
      && Increasing(e.db.history)
      && HistoryOk(c, s.db, e.db)
      && (forall r :: PcOf(e, r) == Returned(true) ==>
            e.db.history != [] && LessEq(c.files[c.ships(r)-1].version, LastOf(e.db.history)))
  {
    var e := Exec(c, s, actions).value;
    InitialInv(c, s);
    ExecKeeps(c, s.db, s, actions);
    HistoryIncreases(c, s.db, e.db);
    forall r | PcOf(e, r) == Returned(true)
      ensures e.db.history != [] && LessEq(c.files[c.ships(r)-1].version, LastOf(e.db.history))
    {
      assert PcOk(c, s.db, e.db, r, e.pcs[r]);
      UpToIs(c.files, LastOf(e.db.history));
    }
  }

  // ---------------------------------------------------------------- the audit log

  predicate GoApplied(c: Config, db: Db) { exists f :: f in db.applied && f.version == c.goVersion }

  /** What a run in or past its Go migration knows of the audit log. */
  ghost predicate AuditPc(c: Config, start: Table, audit: Table, pc: Pc) {
    match pc
    case GoRunning(_, _, lastID) => lastID >= 0 && DoneUpTo(audit, start, c.rewrite, lastID)
    case GoDone(_, _) => AllDone(audit, start, c.rewrite)
    case _ => true
  }

  ghost predicate AuditInv(c: Config, start: Table, s: State) {
    && Between(s.db.audit, start, c.rewrite)
    && (GoApplied(c, s.db) ==> AllDone(s.db.audit, start, c.rewrite))
    && (forall r :: r in s.pcs ==> AuditPc(c, start, s.db.audit, s.pcs[r]))
  }

  lemma {:induction false} GoBatchKeepsAudit(c: Config, start: Table, s: State, r: int)
    requires c.Valid() && Idempotent(c.rewrite) && AuditInv(c, start, s) && Next(c, s, GoBatch(r)).Some?
    ensures AuditInv(c, start, Next(c, s, GoBatch(r)).value)
  {
    var pc, t := PcOf(s, r), s.db.audit;
    assert r in s.pcs && AuditPc(c, start, t, pc);
    SharedBatch(t, start, c.rewrite, pc.lastID, c.batchSize);
    var b := BatchStep(t, c.rewrite, pc.lastID, c.batchSize);
    forall q | q in s.pcs && q != r ensures AuditPc(c, start, b.rows, s.pcs[q]) {
      BatchKeepsPc(c, start, t, pc.lastID, s.pcs[q]);
    }
    if GoApplied(c, s.db) { OthersBatchAll(t, start, c.rewrite, pc.lastID, c.batchSize); }
  }

  /** Whoever runs a batch, what the others know stays true. */
  lemma {:induction false} BatchKeepsPc(c: Config, start: Table, t: Table, lastID: int, pc: Pc)
    requires Idempotent(c.rewrite) && AuditPc(c, start, t, pc)
    ensures AuditPc(c, start, BatchStep(t, c.rewrite, lastID, c.batchSize).rows, pc)
  {
    if pc.GoRunning? { OthersBatch(t, start, c.rewrite, lastID, c.batchSize, pc.lastID); }
    if pc.GoDone? { OthersBatchAll(t, start, c.rewrite, lastID, c.batchSize); }
  }

  lemma {:induction false} RunSqlKeepsAudit(c: Config, start: Table, s: State, r: int)
    requires AuditInv(c, start, s) && Next(c, s, RunSql(r)).Some?
    ensures AuditInv(c, start, Next(c, s, RunSql(r)).value)
  {
    RunSqlIs(c, s, r);
    var pc := PcOf(s, r);
    assert r in s.pcs && AuditPc(c, start, s.db.audit, pc);
    var s' := Next(c, s, RunSql(r)).value;
    assert forall f :: f in s'.db.applied ==> f in s.db.applied || f == c.files[pc.next];
  }

  /** The other steps leave the audit log and the applied files alone. */
  lemma {:induction false} OtherStepKeepsAudit(c: Config, start: Table, s: State, a: Action)
    requires AuditInv(c, start, s) && Next(c, s, a).Some? && !a.GoBatch? && !a.RunSql?
    ensures AuditInv(c, start, Next(c, s, a).value)
  {
    var s' := Next(c, s, a).value;
    assert s'.db.audit == s.db.audit && s'.db.applied == s.db.applied;
    forall q | q in s'.pcs ensures AuditPc(c, start, s'.db.audit, s'.pcs[q]) {
      assert q != a.r ==> q in s.pcs && s'.pcs[q] == s.pcs[q];
      assert q in s.pcs ==> AuditPc(c, start, s.db.audit, s.pcs[q]);
    }
  }

  lemma {:induction false} ExecKeepsAudit(c: Config, start: Table, s: State, actions: seq<Action>)
    requires c.Valid() && Idempotent(c.rewrite) && AuditInv(c, start, s) && Exec(c, s, actions).Some?
    ensures AuditInv(c, start, Exec(c, s, actions).value)
    decreases |actions|
  {
    if actions != [] {
      var a := actions[0];
      match a {
        case GoBatch(r) => GoBatchKeepsAudit(c, start, s, r);
        case RunSql(r) => RunSqlKeepsAudit(c, start, s, r);
        case _ => OtherStepKeepsAudit(c, start, s, a);
      }
      ExecKeepsAudit(c, start, Next(c, s, a).value, actions[1..]);
    }
  }

  /** Once the version with the Go migration is recorded, the audit log is rewritten: each row of
      positive id once. */
  ghost predicate Rewritten(c: Config, s: State, actions: seq<Action>) {
    Exec(c, s, actions).Some? && GoApplied(c, Exec(c, s, actions).value.db) ==>
      AllDone(Exec(c, s, actions).value.db.audit, s.db.audit, c.rewrite)
  }

  /** The same runs, when rewriting twice is rewriting once. */
  lemma {:induction false} AuditIsRewritten(c: Config, s: State, actions: seq<Action>)
    requires c.Valid() && Idempotent(c.rewrite) && Initial(s)
    ensures Rewritten(c, s, actions)
  {
    if Exec(c, s, actions).Some? { ExecKeepsAudit(c, s.db.audit, s, actions); }
  }

  lemma {:induction false} ExecCons(c: Config, s: State, a: Action, s': State, rest: seq<Action>)
    requires Next(c, s, a) == Some(s')
    ensures Exec(c, s, [a] + rest) == Exec(c, s', rest)
  {
    assert ([a] + rest)[1..] == rest;
  }

  lemma {:induction false} ExecTwo(c: Config, s: State, a: Action, s1: State, b: Action, s2: State, rest: seq<Action>)
    requires Next(c, s, a) == Some(s1) && Next(c, s1, b) == Some(s2)
    ensures Exec(c, s, [a, b] + rest) == Exec(c, s2, rest)
  {
    var tail := [b] + rest;
    assert [a, b] + rest == [a] + tail;
    ExecCons(c, s1, b, s2, rest);
    ExecCons(c, s, a, s1, tail);
  }

  lemma {:induction false} ListOfFour(a: Action, b: Action, x: Action, y: Action, rest: seq<Action>)
    ensures [a, b, x, y] + rest == [a, b] + ([x, y] + rest)
  {
  }

  lemma {:induction false} GotoTwice(s: State, r: int, a: Pc, b: Pc)
    ensures Goto(Goto(s, r, a), r, b) == Goto(s, r, b)
  {
    assert s.pcs[r := a][r := b] == s.pcs[r := b];
  }

  /** From the start of a run to its Go migration, on a database one version behind. */
  function Enter(r: int): seq<Action> { [Start(r), Acquire(r), ReadVersion(r), BeginGo(r)] }

  lemma {:induction false} Enters(c: Config, s: State, r: int, from: Version, rest: seq<Action>)
    requires s.lock.Free? && (PcOf(s, r).Idle? || PcOf(s, r).Returned?) && s.db.principal && s.db.history == [from]
    requires c.ships(r) >= 1 && |c.files| >= 1 && c.files[0].version == c.goVersion && !LessEq(c.goVersion, from)
    ensures Exec(c, s, Enter(r) + rest) == Exec(c, Goto(s, r, GoRunning(from, 0, 0)).(lock := HeldBy(r)), rest)
  {
    var held := s.(lock := HeldBy(r));
    GotoTwice(s, r, Waiting, Locked);
    GotoTwice(held, r, Locked, Migrating(from, 0));
    GotoTwice(held, r, Migrating(from, 0), GoRunning(from, 0, 0));
    ListOfFour(Start(r), Acquire(r), ReadVersion(r), BeginGo(r), rest);
    ExecTwo(c, s, Start(r), Goto(s, r, Waiting), Acquire(r), Goto(held, r, Locked), [ReadVersion(r), BeginGo(r)] + rest);
    ExecTwo(c, Goto(held, r, Locked), ReadVersion(r), Goto(held, r, Migrating(from, 0)),
            BeginGo(r), Goto(held, r, GoRunning(from, 0, 0)), rest);
  }

  lemma {:induction false} OneRowBatch(ref: string, f: Rewrite, size: nat)
    requires size >= 1 && Matches(ref)
    ensures BatchStep(map[1 := ref], f, 0, size) == Batch(map[1 := f(ref)], 1, false)
  {
    var t := map[1 := ref];
    assert Matching(t, 0) == {1};
    var ids := FirstIds({1}, size);
    assert forall i :: 0 <= i < |ids| ==> ids[i] in ids;
    OnlyId(ids);
    assert RewriteRows(t, f, [1]) == map[1 := f(ref)];
  }

  lemma {:induction false} OnlyId(ids: seq<int>)
    requires ids != [] && forall i :: 0 <= i < |ids| ==> ids[i] == 1
    requires forall i, j :: 0 <= i < j < |ids| ==> ids[i] < ids[j]
    ensures ids == [1]
  {
    FirstBelowSecond(ids);
  }

  lemma {:induction false} FirstBelowSecond(ids: seq<int>)
    requires forall i, j :: 0 <= i < j < |ids| ==> ids[i] < ids[j]
    ensures |ids| > 1 ==> ids[0] < ids[1]
  {
  }

  /** A crash after the only batch, and a second run. */
  function CrashAndRerun(): seq<Action> {
    Enter(1) + ([GoBatch(1), Crash(1)] + (Enter(1) + [GoBatch(1), GoBatch(1), RunSql(1)]))
  }

  function OneRow(ref: string): State {
    State(Db(true, [Version(0, 0, 0)], [], map[1 := ref]), Free, map[])
  }

  /** One row, the run in its Go migration after `lastID`. */
  function InGo(ref: string, lastID: int): State {
    State(OneRow(ref).db, HeldBy(1), map[1 := GoRunning(Version(0, 0, 0), 0, lastID)])
  }

  /** The batch rewrites the row. */
  lemma {:induction false} OnlyBatch(c: Config, ref: string)
    requires c.batchSize >= 1 && Matches(ref)
    ensures Next(c, InGo(ref, 0), GoBatch(1)) == Some(InGo(c.rewrite(ref), 1))
  {
    OneRowBatch(ref, c.rewrite, c.batchSize);
    assert InGo(ref, 0).pcs[1 := GoRunning(Version(0, 0, 0), 0, 1)] == InGo(c.rewrite(ref), 1).pcs;
  }

  /** It rewrites the only row twice. */
  lemma {:induction false} RewrittenTwice(c: Config, file: File, ref: string)
    requires c.Valid() && c.files == [file] && file.version == c.goVersion == Version(1, 0, 0)
    requires Matches(ref) && Matches(c.rewrite(ref))
    ensures var e := Exec(c, OneRow(ref), CrashAndRerun());
            e.Some? && e.value.db.applied == [file] && e.value.db.audit == map[1 := c.rewrite(c.rewrite(ref))]
  {
    var f, crashed := c.rewrite, Goto(OneRow(c.rewrite(ref)), 1, Idle);
    var second := Enter(1) + [GoBatch(1), GoBatch(1), RunSql(1)];
    Enters(c, OneRow(ref), 1, Version(0, 0, 0), [GoBatch(1), Crash(1)] + second);
    OnlyBatch(c, ref);
    GotoTwice(OneRow(f(ref)), 1, GoRunning(Version(0, 0, 0), 0, 1), Idle);
    ExecTwo(c, InGo(ref, 0), GoBatch(1), InGo(f(ref), 1), Crash(1), crashed, second);
    SecondRun(c, file, f(ref), crashed);
  }

  lemma {:induction false} SecondRun(c: Config, file: File, ref: string, s: State)
    requires c.Valid() && c.files == [file] && file.version == c.goVersion == Version(1, 0, 0) && Matches(ref)
    requires s == Goto(OneRow(ref), 1, Idle)
    ensures var e := Exec(c, s, Enter(1) + [GoBatch(1), GoBatch(1), RunSql(1)]);
            e.Some? && e.value.db.applied == [file] && e.value.db.audit == map[1 := c.rewrite(ref)]
  {
    var f, from := c.rewrite, Version(0, 0, 0);
    Enters(c, s, 1, from, [GoBatch(1), GoBatch(1), RunSql(1)]);
    GotoTwice(OneRow(ref).(lock := HeldBy(1)), 1, Idle, GoRunning(from, 0, 0));
    OnlyBatch(c, ref);
    BatchEndsRow(c, f(ref));
    var done := Goto(InGo(f(ref), 1), 1, GoDone(from, 0));
    assert [GoBatch(1), GoBatch(1), RunSql(1)] == [GoBatch(1), GoBatch(1)] + [RunSql(1)];
    ExecTwo(c, InGo(ref, 0), GoBatch(1), InGo(f(ref), 1), GoBatch(1), done, [RunSql(1)]);
    LastStep(c, file, f(ref), done);
  }

  /** The batch after it finds no row left. */
  lemma {:induction false} BatchEndsRow(c: Config, ref: string)
    requires c.batchSize >= 1
    ensures Next(c, InGo(ref, 1), GoBatch(1)) == Some(Goto(InGo(ref, 1), 1, GoDone(Version(0, 0, 0), 0)))
  {
    assert Matching(map[1 := ref], 1) == {};
  }

  lemma {:induction false} LastStep(c: Config, file: File, ref: string, s: State)
    requires c.Valid() && c.files == [file] && file.version == Version(1, 0, 0)
    requires s == Goto(InGo(ref, 1), 1, GoDone(Version(0, 0, 0), 0))
    ensures var e := Exec(c, s, [RunSql(1)]); e.Some? && e.value.db.applied == [file] && e.value.db.audit == map[1 := ref]
  {
    var e := Next(c, s, RunSql(1)).value;
    assert e.db.applied == [] + [file];
    assert [RunSql(1)] == [RunSql(1)] + [];
    ExecCons(c, s, RunSql(1), e, []);
  }

  /** Every run of every configuration with this rewriting and batch size leaves the audit log
      rewritten once the version is recorded. */
  ghost predicate AlwaysRewritten(f: Rewrite, size: nat) {
    forall c: Config, s: State, actions: seq<Action> ::
      c.Valid() && c.rewrite == f && c.batchSize == size && Initial(s) ==> Rewritten(c, s, actions)
  }

  /** Replicas may crash and start again freely, as far as the audit log goes, exactly when no
      email is, as text, the id of a user with another email. */
  lemma {:induction false} AlwaysRewrittenIff(users: Users, size: nat)
    requires size >= 1
    ensures AlwaysRewritten(RewriteOf(users), size) <==> EmailsAreNotIds(users)
  {
    var f := RewriteOf(users);
    IdempotentIff(users);
    QuerySelectsAllChanges(users);
    if Idempotent(f) {
      forall c: Config, s: State, actions: seq<Action> | c.Valid() && c.rewrite == f && c.batchSize == size && Initial(s)
        ensures Rewritten(c, s, actions)
      {
        AuditIsRewritten(c, s, actions);
      }
    } else {
      var ref :| f(f(ref)) != f(ref);
      NotAlwaysRewritten(f, size, ref);
    }
  }

  lemma {:induction false} NotAlwaysRewritten(f: Rewrite, size: nat, ref: string)
    requires size >= 1 && SelectsAllChanges(f) && f(f(ref)) != f(ref)
    ensures !AlwaysRewritten(f, size)
  {
    var file := File(Version(1, 0, 0), "");
    var c := Config([file], (r: int) => 1, file.version, f, size);
    var s := OneRow(ref);
    assert Matches(ref) && Matches(f(ref));
    assert SortedFiles(c.files);
    RewrittenTwice(c, file, ref);
    var e := Exec(c, s, CrashAndRerun()).value;
    assert file in e.db.applied;
    assert e.db.audit[1] != f(s.db.audit[1]);
    assert !Rewritten(c, s, CrashAndRerun());
  }

  // ---------------------------------------------------------------- the lock

  predicate HoldsLock(pc: Pc) { pc.Locked? || pc.Migrating? || pc.GoRunning? || pc.GoDone? }

  ghost predicate Exclusive(s: State) {
    forall r :: r in s.pcs && HoldsLock(s.pcs[r]) ==> s.lock == HeldBy(r)
  }

  /** Nothing a run has still to apply has been recorded. */
  ghost predicate Ahead(c: Config, db: Db, pc: Pc) {
    pc.Migrating? || pc.GoRunning? || pc.GoDone? ==>
      db.history != [] &&
      forall i :: pc.next <= i < |c.files| && !LessEq(c.files[i].version, pc.from) ==> Less(LastOf(db.history), c.files[i].version)
  }

  ghost predicate AllAhead(c: Config, s: State) { forall r :: r in s.pcs ==> Ahead(c, s.db, s.pcs[r]) }

  lemma {:induction false} CommitStaysAhead(c: Config, s: State, r: int)
    requires c.Valid() && AllAhead(c, s) && Next(c, s, RunSql(r)).Some?
    ensures Ahead(c, Next(c, s, RunSql(r)).value.db, PcOf(Next(c, s, RunSql(r)).value, r))
  {
    var pc := PcOf(s, r);
    if CommitFile(s.db, c.files[pc.next]).Ok? {
      var vs := Versions(c.files);
      forall i | pc.next < i < |c.files| ensures Less(c.files[pc.next].version, c.files[i].version) {
        assert Less(vs[pc.next], vs[i]);
      }
    }
  }

  lemma {:induction false} DbStepExcludes(c: Config, s: State, a: Action)
    requires c.Valid() && Exclusive(s) && AllAhead(c, s) && Next(c, s, a).Some? && (a.RunSql? || a.Initialise?)
    ensures Exclusive(Next(c, s, a).value) && AllAhead(c, Next(c, s, a).value)
  {
    var s' := Next(c, s, a).value;
    if a.RunSql? { CommitStaysAhead(c, s, a.r); }
    forall q | q in s'.pcs ensures Ahead(c, s'.db, s'.pcs[q]) && (HoldsLock(s'.pcs[q]) ==> s.lock == HeldBy(q)) {
      assert q in s.pcs && HoldsLock(s.pcs[q]) ==> s.lock == HeldBy(q);
      assert HoldsLock(PcOf(s, a.r)) && s.lock == HeldBy(a.r);
    }
  }

  lemma {:induction false} OtherStepExcludes(c: Config, s: State, a: Action)
    requires c.Valid() && Exclusive(s) && AllAhead(c, s) && Next(c, s, a).Some? && !a.RunSql? && !a.Initialise? && !a.LoseLock?
    ensures Exclusive(Next(c, s, a).value) && AllAhead(c, Next(c, s, a).value)
  {
    var s' := Next(c, s, a).value;
    assert s'.db.history == s.db.history;
    assert a.r in s.pcs ==> Ahead(c, s.db, s.pcs[a.r]) && (HoldsLock(s.pcs[a.r]) ==> s.lock == HeldBy(a.r));
    assert forall q :: q in s'.pcs && q != a.r ==> q in s.pcs && s'.pcs[q] == s.pcs[q];
    assert a.r in s'.pcs ==> Ahead(c, s'.db, s'.pcs[a.r]);
    assert a.r in s'.pcs && HoldsLock(s'.pcs[a.r]) ==> s'.lock == HeldBy(a.r);
  }

  lemma {:induction false} ExecExcludes(c: Config, s: State, actions: seq<Action>)
    requires c.Valid() && Exclusive(s) && AllAhead(c, s) && Exec(c, s, actions).Some?
    requires forall r :: LoseLock(r) !in actions
    ensures Exclusive(Exec(c, s, actions).value) && AllAhead(c, Exec(c, s, actions).value)
    decreases |actions|
  {
    if actions != [] {
      var a := actions[0];
      assert a in actions && !(a.LoseLock? && LoseLock(a.r) != a);
      if a.RunSql? || a.Initialise? { DbStepExcludes(c, s, a); } else { OtherStepExcludes(c, s, a); }
      assert forall r :: LoseLock(r) in actions[1..] ==> LoseLock(r) in actions;
      ExecExcludes(c, Next(c, s, a).value, actions[1..]);
    }
  }

  /** While no lock session is lost, at most one replica is past the acquisition, and the commit
      it comes to is never refused as already recorded. */
  lemma {:induction false} MigrationsExclude(c: Config, s: State, actions: seq<Action>, r: int)
    requires c.Valid() && Initial(s) && Exec(c, s, actions).Some?
    requires forall r :: LoseLock(r) !in actions
    ensures var e := Exec(c, s, actions).value;
            && (forall q :: HoldsLock(PcOf(e, q)) && HoldsLock(PcOf(e, r)) ==> q == r)
            && (Next(c, e, RunSql(r)).Some? ==> CommitFile(e.db, c.files[PcOf(e, r).next]).Ok?)
  {
    var e := Exec(c, s, actions).value;
    ExecExcludes(c, s, actions);
    if Next(c, e, RunSql(r)).Some? {
      InitialInv(c, s);
      ExecKeeps(c, s.db, s, actions);
      CanCommit(c, s.db, e, r);
    }
  }

  /** A run about to commit finds its file unrecorded. */
  lemma {:induction false} CanCommit(c: Config, start: Db, e: State, r: int)
    requires c.Valid() && Inv(c, start, e) && AllAhead(c, e) && Next(c, e, RunSql(r)).Some?
    ensures CommitFile(e.db, c.files[PcOf(e, r).next]).Ok?
  {
    var pc := PcOf(e, r);
    assert PcOk(c, start, e.db, r, pc) && Ahead(c, e.db, pc);
    AheadCommits(c, start, e.db, r, pc.from, pc.next);
  }

  lemma {:induction false} AheadCommits(c: Config, start: Db, db: Db, r: int, from: Version, next: nat)
    requires c.Valid() && HistoryOk(c, start, db) && AtFile(c, start, db, r, from, next)
    requires next < |c.files| && !LessEq(c.files[next].version, from) && Less(LastOf(db.history), c.files[next].version)
    ensures CommitFile(db, c.files[next]).Ok?
  {
    UpToIs(c.files, LastOf(db.history));
    CommitIsNext(c, start, db, r, from, next);
  }

  // ---------------------------------------------------------------- one run

  /** The version with a Go migration and what that needs; `stops` says after how many batches
      the connection breaks, if it does. */
  datatype Go = Go(version: Version, users: Users, batchSize: nat, stops: Option<nat>)

  /** The audit log after files[lo..n]. */
  function AuditAfter(files: seq<File>, go: Go, audit: Table, lo: nat, n: nat): Table
    requires lo <= n <= |files|
    decreases n
  {
    if lo == n then audit
    else if files[n-1].version == go.version then ConvertAll(audit, RewriteOf(go.users))
    else AuditAfter(files, go, audit, lo, n - 1)
  }

  /** The database after files[lo..n]. */
  function After(files: seq<File>, go: Go, was: Db, lo: nat, n: nat): Db
    requires lo <= n <= |files|
  {
    was.(history := was.history + Versions(files[lo..n]), applied := was.applied + files[lo..n],
         audit := AuditAfter(files, go, was.audit, lo, n))
  }

  /** The connection breaks before the Go migration has found no rows left. */
  predicate GoFails(go: Go, audit: Table) {
    go.stops.Some? && !Ends(audit, StepperOf(RewriteOf(go.users), go.batchSize), 0, go.stops.value)
  }

  /** What the Go migration leaves of an audit log. */
  function AfterGo(go: Go, audit: Table): Table {
    if GoFails(go, audit) then Batches(audit, StepperOf(RewriteOf(go.users), go.batchSize), 0, go.stops.value)
    else ConvertAll(audit, RewriteOf(go.users))
  }

  /** What a failure at files[n] leaves: earlier files applied, this one not; of its Go migration,
      whatever was committed. */
  function StoppedAt(files: seq<File>, go: Go, was: Db, lo: nat, n: nat): Db
    requires lo <= n < |files|
  {
    var db := After(files, go, was, lo, n);
    if files[n].version != go.version then db
    else db.(audit := AfterGo(go, db.audit))
  }

  class Database {
    var db: Db

    constructor (db: Db)
      ensures this.db == db
    {
      this.db := db;
    }

    /** executeMigration; `ok` says whether the statement itself succeeds. */
    method ExecuteMigration(f: File, ok: bool) returns (done: bool)
      modifies this
      ensures done <==> ok && f.version !in old(db).history
      ensures db == if done then old(db).(history := old(db).history + [f.version], applied := old(db).applied + [f]) else old(db)
    {
      if !ok { return false; }
      match CommitFile(db, f)
      case Error => return false;
      case Ok(d) =>
        db := d;
        return true;
    }

    /** migrate3_13_21 on this database. */
    method RunGoMigration(go: Go) returns (done: bool)
      requires go.batchSize >= 1
      modifies this
      ensures done <==> !GoFails(go, old(db).audit)
      ensures db == old(db).(audit := AfterGo(go, old(db).audit))
    {
      var table := new AuditTable(db.audit);
      if go.stops.Some? {
        done := table.MigrateUntil(go.users, go.batchSize, go.stops.value);
      } else {
        var total := table.Migrate(go.users, go.batchSize);
        done := true;
      }
      db := db.(audit := table.rows);
    }

    /** MigrateSchema, under the lock. `runs(i)` says whether the statement of files[i] succeeds,
        `runs(|files|)` whether that of the latest schema does. */
    method MigrateSchema(files: seq<File>, go: Go, runs: nat -> bool) returns (ok: bool)
      requires SortedFiles(files) && files != [] && Increasing(db.history) && go.batchSize >= 1
      modifies this
      ensures !old(db).principal ==>
                (if ok then db == old(db).(principal := true, history := [files[|files|-1].version]) else db == old(db))
      ensures old(db).principal && old(db).history == [] ==> !ok && db == old(db)
      ensures old(db).principal && old(db).history != [] ==>
                MigratedTo(files, go, runs, old(db), UpTo(files, LastOf(old(db).history)), db, ok)
      ensures ok && old(db).principal && old(db).history != [] ==>
                old(db).applied <= db.applied &&
                var v := old(db).history[|old(db).history|-1];
                forall f :: f in db.applied[|old(db).applied|..] <==>
                  f in files && (f.version.major > v.major
                                 || (f.version.major == v.major && f.version.minor > v.minor)
                                 || (f.version.major == v.major && f.version.minor == v.minor && f.version.patch > v.patch))
    {
      if !db.principal {
        if !runs(|files|) { return false; }
        db := db.(principal := true, history := [files[|files|-1].version]);
        return true;
      }
      if db.history == [] { return false; }
      var from := LastOf(db.history);
      ghost var was, lo := db, UpTo(files, from);
      UpToIs(files, from);
      assert db == After(files, go, was, lo, lo) by { assert files[lo..lo] == []; }
      for i := 0 to |files|
        invariant db == After(files, go, was, lo, if i < lo then lo else i)
      {
        if !LessEq(files[i].version, from) {
          AfterNext(files, go, was, lo, i);
          if files[i].version == go.version {
            var done := RunGoMigration(go);
            if !done {
              assert FailsAt(files, go, runs, was.audit, i) && db == StoppedAt(files, go, was, lo, i);
              return false;
            }
          }
          var done := ExecuteMigration(files[i], runs(i));
          if !done {
            assert FailsAt(files, go, runs, was.audit, i) && db == StoppedAt(files, go, was, lo, i);
            return false;
          }
        }
      }
      NewerFiles(files, from);
      return true;
    }
  }

  /** The files from where a database is are exactly those with a newer version. */
  lemma {:induction false} NewerFiles(files: seq<File>, v: Version)
    requires SortedFiles(files)
    ensures forall f :: f in files[UpTo(files, v)..|files|] <==>
              f in files && (f.version.major > v.major
                             || (f.version.major == v.major && f.version.minor > v.minor)
                             || (f.version.major == v.major && f.version.minor == v.minor && f.version.patch > v.patch))
  {
    var lo := UpTo(files, v);
    UpToIs(files, v);
    forall f | f in files && !LessEq(f.version, v) ensures f in files[lo..|files|] {
      var i :| 0 <= i < |files| && files[i] == f;
      assert files[lo..|files|][i - lo] == f;
    }
  }

  /** All files above the starting version applied, or all up to the first one that fails. */
  ghost predicate MigratedTo(files: seq<File>, go: Go, runs: nat -> bool, was: Db, lo: nat, db: Db, ok: bool)
    requires lo <= |files|
  {
    if ok then db == After(files, go, was, lo, |files|)
    else exists n :: lo <= n < |files| && FailsAt(files, go, runs, was.audit, n) && db == StoppedAt(files, go, was, lo, n)
  }

  predicate FailsAt(files: seq<File>, go: Go, runs: nat -> bool, audit: Table, n: nat)
    requires n < |files|
  {
    !runs(n) || (files[n].version == go.version && GoFails(go, audit))
  }

  lemma {:induction false} AfterNext(files: seq<File>, go: Go, was: Db, lo: nat, n: nat)
    requires SortedFiles(files) && Increasing(was.history) && was.history != []
    requires lo == UpTo(files, LastOf(was.history)) && lo <= n < |files|
    ensures var db, f := After(files, go, was, lo, n), files[n];
            && f.version !in db.history && (f.version == go.version ==> db.audit == was.audit)
            && After(files, go, was, lo, n + 1) ==
               db.(history := db.history + [f.version], applied := db.applied + [f],
                   audit := if f.version == go.version then ConvertAll(db.audit, RewriteOf(go.users)) else db.audit)
  {
    UpToIs(files, LastOf(was.history));
    FileIsNew(files, was.history, lo, n);
    AddFile(files, was.history, lo, n);
    AppliedAssociates(was.applied, files[lo..n], files[n]);
    GoComesOnce(files, go, was.audit, lo, n);
  }

  lemma {:induction false} AppliedAssociates(a: seq<File>, b: seq<File>, f: File)
    ensures a + b + [f] == a + (b + [f])
  {
  }

  lemma {:induction false} FileIsNew(files: seq<File>, history: seq<Version>, lo: nat, n: nat)
    requires SortedFiles(files) && Increasing(history) && history != [] && lo <= n < |files|
    requires forall i :: lo <= i < |files| ==> Less(LastOf(history), files[i].version)
    ensures files[n].version !in history + Versions(files[lo..n])
  {
    AddFile(files, history, lo, n);
    TailIncreases(files, history, lo, n + 1);
    NewVersion(history + Versions(files[lo..n]), files[n].version);
  }

  lemma {:induction false} NewVersion(vs: seq<Version>, v: Version)
    requires Increasing(vs + [v])
    ensures v !in vs
  {
    var ws := vs + [v];
    assert forall j :: 0 <= j < |vs| ==> Less(ws[j], ws[|vs|]) && ws[j] == vs[j];
  }

  /** Before the file with the Go migration the audit log is untouched. */
  lemma {:induction false} GoComesOnce(files: seq<File>, go: Go, audit: Table, lo: nat, n: nat)
    requires SortedFiles(files) && lo <= n < |files|
    ensures files[n].version == go.version ==> AuditAfter(files, go, audit, lo, n) == audit
    decreases n
  {
    if files[n].version == go.version { GoNotBefore(files, go, audit, lo, n, n); }
  }

  lemma {:induction false} GoNotBefore(files: seq<File>, go: Go, audit: Table, lo: nat, n: nat, k: nat)
    requires SortedFiles(files) && lo <= n <= k < |files| && files[k].version == go.version
    ensures AuditAfter(files, go, audit, lo, n) == audit
    decreases n
  {
    if lo < n {
      var vs := Versions(files);
      assert Less(vs[n-1], vs[k]);
      GoNotBefore(files, go, audit, lo, n - 1, k);
    }
  }
}
