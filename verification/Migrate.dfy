/** minimoni-migrate: the files it makes and replaces, the steps it applies, and how it can end. */
module Migrate {
  import opened Rows
  import Compaction

  // --- Databases and files ---

  /** A script `minimoni db exec` runs in one transaction. */
  datatype Change = Migrated(from: int, to: int) | Consolidated

  /** The logical content of a database: where it started and the scripts committed since. */
  datatype Content = Content(origin: nat, base: int, changes: seq<Change>)

  function Version(c: Content): int
    decreases |c.changes|
  {
    if c.changes == [] then c.base
    else match c.changes[|c.changes| - 1]
         case Migrated(_, to) => to
         case Consolidated => Version(c.(changes := c.changes[..|c.changes| - 1]))
  }

  function Committed(c: Content, change: Change): Content {
    c.(changes := c.changes + [change])
  }

  datatype File = Blank | Garbage | Database(content: Content)

  // --- The registry ---

  datatype Migration = Migration(from: int, to: int)

  const MIGRATIONS: seq<Migration> := [Migration(0, 1), Migration(1, 2)]

  function Latest(registry: seq<Migration>): int {
    if registry == [] then 0 else registry[|registry| - 1].to
  }

  /** The first migration that starts at `from`. */
  function Find(registry: seq<Migration>, from: int): (m: Option<Migration>)
    ensures m.Some? ==> m.value in registry && m.value.from == from
    ensures m == None ==> forall x :: x in registry ==> x.from != from
  {
    if registry == [] then None
    else if registry[0].from == from then Some(registry[0])
    else Find(registry[1..], from)
  }

  /** Every migration moves up, and none past the latest version. */
  predicate Rising(registry: seq<Migration>) {
    forall m :: m in registry ==> m.from < m.to <= Latest(registry)
  }

  lemma ShippedRegistryRises()
    ensures Rising(MIGRATIONS) && Latest(MIGRATIONS) == 2
  {}

  // --- The steps ---

  /** How one `db exec` of a script ends. With 0 the script has been committed; a run that dies after
      its COMMIT reports failure with the script committed too. */
  datatype Outcome = Outcome(rc: int, committed: bool) {
    predicate Takes() { rc == 0 || committed }
  }

  /** What the outside answers, call by call: script runs, copies (VACUUM INTO), file-system calls,
      and the read-only checks. */
  datatype World = World(exec: (nat, Content, Change) -> Outcome, copy: nat -> int, io: nat -> bool, check: nat -> bool)

  /** No file-system call fails. */
  ghost predicate Tidy(w: World) {
    forall i :: w.io(i)
  }

  /** Nothing outside the scripts fails. */
  ghost predicate Obliging(w: World) {
    Tidy(w) && forall i :: w.check(i) && w.copy(i) == 0
  }

  /** No script fails. */
  ghost predicate Willing(w: World) {
    forall i, c, change :: w.exec(i, c, change).rc == 0
  }

  datatype Walked = Walked(rc: int, content: Content, tick: nat)

  /** The step loop on a database, from the call number `tick` on. */
  function Walk(w: World, registry: seq<Migration>, tick: nat, c: Content, current: int): Walked
    requires Rising(registry)
    decreases Latest(registry) - current
  {
    if current >= Latest(registry) then Walked(0, c, tick)
    else match Find(registry, current)
         case None => Walked(2, c, tick)
         case Some(m) =>
           var o := w.exec(tick, c, Migrated(m.from, m.to));
           var next := if o.Takes() then Committed(c, Migrated(m.from, m.to)) else c;
           if o.rc != 0 then Walked(2, next, tick + 1) else Walk(w, registry, tick + 1, next, m.to)
  }

  /** A migration starts at every version from `from` up to the latest. */
  ghost predicate Covers(registry: seq<Migration>, from: int) {
    forall v :: from <= v < Latest(registry) ==> Find(registry, v).Some?
  }

  lemma ShippedRegistryCovers()
    ensures Covers(MIGRATIONS, 0)
  {}

  /** With no version missing and no script failing, the loop reaches the latest version. */
  lemma {:induction false} WalkSucceeds(w: World, registry: seq<Migration>, tick: nat, c: Content, current: int)
    requires Rising(registry) && Covers(registry, current) && Willing(w)
    ensures Walk(w, registry, tick, c, current).rc == 0
    decreases Latest(registry) - current
  {
    if current < Latest(registry) {
      assert Find(registry, current).Some?;
      var m := Find(registry, current).value;
      assert w.exec(tick, c, Migrated(m.from, m.to)).rc == 0;
      WalkSucceeds(w, registry, tick + 1, Committed(c, Migrated(m.from, m.to)), m.to);
    }
  }

  /** `d` is `c` with whole steps of the registry committed, each starting at the version the one
      before it reached. */
  ghost predicate ByWholeSteps(registry: seq<Migration>, c: Content, d: Content)
    requires Rising(registry)
    decreases Latest(registry) - Version(c)
  {
    d == c ||
    (Version(c) < Latest(registry) && Find(registry, Version(c)).Some?
     && var m := Find(registry, Version(c)).value;
        ByWholeSteps(registry, Committed(c, Migrated(m.from, m.to)), d))
  }

  /** The loop commits whole steps only, and ends with 0 exactly at the latest version. */
  lemma {:induction false} WalkSteps(w: World, registry: seq<Migration>, tick: nat, c: Content, current: int)
    requires Rising(registry) && current == Version(c) <= Latest(registry)
    ensures var r := Walk(w, registry, tick, c, current);
            && (r.rc == 0 || r.rc == 2)
            && ByWholeSteps(registry, c, r.content)
            && (r.rc == 0 ==> Version(r.content) == Latest(registry))
            && Version(c) <= Version(r.content) <= Latest(registry)
    decreases Latest(registry) - current
  {
    if current < Latest(registry) {
      match Find(registry, current)
      case None =>
      case Some(m) =>
        var o := w.exec(tick, c, Migrated(m.from, m.to));
        var step := Committed(c, Migrated(m.from, m.to));
        StepVersion(c, m);
        hide Version;
        assert ByWholeSteps(registry, step, step);
        if o.rc == 0 {
          WalkSteps(w, registry, tick + 1, step, m.to);
        }
    }
  }

  lemma StepVersion(c: Content, m: Migration)
    ensures Version(Committed(c, Migrated(m.from, m.to))) == m.to
  {}

  /** Scripts whose fate depends on the database alone. */
  ghost predicate Deterministic(w: World) {
    forall t, u, c, change :: w.exec(t, c, change) == w.exec(u, c, change)
  }

  /** Then a rehearsal foretells the run: the loop ends the same whenever it starts. */
  lemma {:induction false} WalkForetells(w: World, registry: seq<Migration>, t: nat, u: nat, c: Content, current: int)
    requires Rising(registry) && Deterministic(w)
    ensures Walk(w, registry, t, c, current).rc == Walk(w, registry, u, c, current).rc
    ensures Walk(w, registry, t, c, current).content == Walk(w, registry, u, c, current).content
    decreases Latest(registry) - current
  {
    if current < Latest(registry) {
      match Find(registry, current)
      case None =>
      case Some(m) =>
        assert w.exec(t, c, Migrated(m.from, m.to)) == w.exec(u, c, Migrated(m.from, m.to));
        var next := if w.exec(t, c, Migrated(m.from, m.to)).Takes() then Committed(c, Migrated(m.from, m.to)) else c;
        WalkForetells(w, registry, t + 1, u + 1, next, m.to);
    }
  }

  /** `n` consolidations committed. */
  function Compacted(c: Content, n: nat): Content {
    if n == 0 then c else Committed(Compacted(c, n - 1), Consolidated)
  }

  lemma {:induction false} CompactedVersion(c: Content, n: nat)
    ensures Version(Compacted(c, n)) == Version(c)
  {
    if n > 0 {
      CompactedVersion(c, n - 1);
      var d := Compacted(c, n);
      assert d.(changes := d.changes[..|d.changes| - 1]) == Compacted(c, n - 1);
    }
  }

  // --- Paths ---

  const SUFFIXES: seq<string> := ["-journal", "-wal", "-shm"]

  function Decimal(n: int): string
    decreases n < 0, if n < 0 then -n else n
  {
    if n < 0 then "-" + Decimal(-n)
    else if n < 10 then [('0' as int + n) as char]
    else Decimal(n / 10) + [('0' as int + n % 10) as char]
  }

  /** Files beside the database that the tool names itself: the path, a dot, and more. */
  predicate Beside(p: string, db: string) {
    |p| > |db| && p[..|db|] == db && p[|db|] == '.'
  }

  /** Neither the database nor a file SQLite keeps beside it is one of those. */
  lemma DatabaseFilesAreNotBeside(db: string)
    ensures !Beside(db, db)
    ensures forall i :: 0 <= i < |SUFFIXES| ==> !Beside(db + SUFFIXES[i], db)
  {}

  function BackupPath(db: string, version: int): string { db + ".backup-pre-migrate-v" + Decimal(version) }

  function DryPath(db: string, pid: int): string { db + ".dry-run-" + Decimal(pid) }

  /** The backups of two starting versions are two files. */
  lemma BackupNames(db: string, v: nat, w: nat)
    ensures BackupPath(db, v) == BackupPath(db, w) <==> v == w
    ensures BackupPath(db, 0) == db + ".backup-pre-migrate-v0" && BackupPath(db, 1) == db + ".backup-pre-migrate-v1"
  {
    var front := db + ".backup-pre-migrate-v";
    if BackupPath(db, v) == BackupPath(db, w) {
      assert Decimal(v) == BackupPath(db, v)[|front|..] == Decimal(w);
      DecimalDiffers(v, w);
    }
  }

  lemma {:induction false} DecimalDiffers(a: nat, b: nat)
    requires Decimal(a) == Decimal(b)
    ensures a == b
  {
    DecimalNotEmpty(a / 10);
    DecimalNotEmpty(b / 10);
    var s, t := Decimal(a), Decimal(b);
    assert s[|s| - 1] as int - '0' as int == a % 10 && t[|t| - 1] as int - '0' as int == b % 10;
    if a >= 10 {
      assert s[..|s| - 1] == Decimal(a / 10) && t[..|t| - 1] == Decimal(b / 10);
      DecimalDiffers(a / 10, b / 10);
    }
  }

  lemma DecimalNotEmpty(n: nat)
    ensures |Decimal(n)| > 0
  {}

  // --- The host ---

  datatype Status = Absent | UpToDate | Pending | Blocked

  /** What the checks before any write find. */
  datatype Verdict = Missing | Refused | AlreadyLatest | Proceeds

  /** What a run prints and returns; `stepsFailed` when a step of the chain did. */
  datatype Report = Report(rc: int, status: Option<Status>, stepsFailed: bool)

  class Host {
    const world: World
    const registry: seq<Migration>
    var files: map<string, File>
    var tick: nat

    constructor (world: World, registry: seq<Migration>, files: map<string, File>)
      ensures this.world == world && this.registry == registry && this.files == files && tick == 0
    {
      this.world, this.registry, this.files, this.tick := world, registry, files, 0;
    }

    /** `remove_file`: a missing file counts as removed. */
    method Remove(p: string) returns (ok: bool)
      modifies this`files, this`tick
      ensures files == if ok then old(files) - {p} else old(files)
      ensures p !in old(files) || Tidy(world) ==> ok
    {
      if p !in files {
        assert files - {p} == files;
        return true;
      }
      ok := world.io(tick);
      tick := tick + 1;
      if ok { files := files - {p}; }
    }

    /** `remove_sidecars`: all three or -1; a path too long for the buffer is refused. */
    method RemoveSidecars(p: string) returns (ok: bool)
      modifies this`files, this`tick
      ensures forall q :: q !in SidecarsOf(p) ==> SameFile(old(files), files, q)
      ensures forall q :: q in files ==> q in old(files) && files[q] == old(files)[q]
      ensures ok ==> forall q :: q in SidecarsOf(p) ==> q !in files
      ensures Tidy(world) && |p| + 8 < 1100 ==> ok
    {
      for i := 0 to |SUFFIXES|
        invariant forall q :: q !in SidecarsOf(p) ==> SameFile(old(files), files, q)
        invariant forall q :: q in files ==> q in old(files) && files[q] == old(files)[q]
        invariant forall j :: 0 <= j < i ==> p + SUFFIXES[j] !in files
      {
        if |p| + |SUFFIXES[i]| >= 1100 { return false; }
        assert p + SUFFIXES[i] in SidecarsOf(p);
        var removed := Remove(p + SUFFIXES[i]);
        if !removed { return false; }
      }
      assert p + SUFFIXES[0] !in files && p + SUFFIXES[1] !in files && p + SUFFIXES[2] !in files;
      return true;
    }

    /** `remove_db_with_sidecars`: the scratch copy and its WAL files, whatever happens. */
    method RemoveScratch(p: string)
      modifies this`files, this`tick
      ensures Tidy(world) ==> p !in files && p + "-wal" !in files && p + "-shm" !in files
      ensures forall q :: q != p && q !in SidecarsOf(p) ==> SameFile(old(files), files, q)
      ensures forall q :: q in files ==> q in old(files) && files[q] == old(files)[q]
    {
      var _ := Remove(p);
      assert p + SUFFIXES[1] in SidecarsOf(p) && p + SUFFIXES[2] in SidecarsOf(p);
      var _ := Remove(p + "-wal");
      var _ := Remove(p + "-shm");
    }

    /** `migrate_snapshot`. On success `dst` is a complete copy of `src` with no sidecar of an earlier
        `dst` beside it; on failure an earlier `dst` is the file it was. Nothing but `dst`, its
        temporary and their sidecars is touched. */
    method Snapshot(src: string, dst: string) returns (ok: bool)
      requires src != dst && src != dst + ".tmp" && src !in SidecarsOf(dst) && src !in SidecarsOf(dst + ".tmp")
      modifies this`files, this`tick
      ensures ok ==> && src in old(files) && old(files)[src].Database?
                     && dst in files && files[dst] == old(files)[src]
                     && forall q :: q in SidecarsOf(dst) ==> q !in files
      ensures !ok ==> SameFile(old(files), files, dst)
      ensures Obliging(world) && src in old(files) && old(files)[src].Database? && |dst| + 12 < 1100 ==> ok
      ensures ok || (Tidy(world) && |dst| + 4 < 1100) ==> dst + ".tmp" !in files
      ensures forall q :: Untouched(q, dst) ==> SameFile(old(files), files, q)
    {
      hide SidecarsOf;
      var tmp := dst + ".tmp";
      NamesDiffer(dst);
      if |tmp| >= 1100 { return false; }
      var made := FillTemporary(src, tmp);
      if !made { return false; }
      ok := Publish(tmp, dst);
    }

    /** Clear the temporary, create it empty, and copy the database into it. */
    method FillTemporary(src: string, tmp: string) returns (ok: bool)
      requires src != tmp && src !in SidecarsOf(tmp) && tmp !in SidecarsOf(tmp)
      modifies this`files, this`tick
      ensures ok ==> src in old(files) && old(files)[src].Database? && tmp in files && files[tmp] == old(files)[src]
      ensures Obliging(world) && src in old(files) && old(files)[src].Database? && |tmp| + 8 < 1100 ==> ok
      ensures !ok && Tidy(world) ==> tmp !in files
      ensures forall q :: q != tmp && q !in SidecarsOf(tmp) ==> SameFile(old(files), files, q)
    {
      hide SidecarsOf;
      var cleared := Remove(tmp);
      if !cleared { return false; }
      cleared := RemoveSidecars(tmp);
      if !cleared { return false; }

      /* open(tmp, O_CREAT | O_EXCL) */
      var created := tmp !in files && world.io(tick);
      tick := tick + 1;
      if !created { return false; }
      files := files[tmp := Blank];

      /* db exec "VACUUM INTO ?1": opening a source that is not a database fails */
      assert SameFile(old(files), files, src);
      var rc := if src in files && files[src].Database? then world.copy(tick) else 2;
      tick := tick + 1;
      if rc != 0 {
        files := files[tmp := Garbage];
        var _ := Remove(tmp);
        return false;
      }
      files := files[tmp := files[src]];
      return true;
    }

    /** Put the finished copy in place of `dst`, without the sidecars of an earlier one. */
    method Publish(tmp: string, dst: string) returns (ok: bool)
      requires tmp in files && tmp != dst && tmp !in SidecarsOf(dst) && dst !in SidecarsOf(dst)
      modifies this`files, this`tick
      ensures ok ==> dst in files && files[dst] == old(files)[tmp] && forall q :: q in SidecarsOf(dst) ==> q !in files
      ensures !ok ==> SameFile(old(files), files, dst)
      ensures Tidy(world) && |dst| + 8 < 1100 ==> ok
      ensures ok || Tidy(world) ==> tmp !in files
      ensures forall q :: q != dst && q != tmp && q !in SidecarsOf(dst) ==> SameFile(old(files), files, q)
    {
      hide SidecarsOf;
      var cleared := RemoveSidecars(dst);
      assert SameFile(old(files), files, tmp);
      if !cleared {
        var _ := Remove(tmp);
        return false;
      }

      /* rename(tmp, dst) */
      var renamed := world.io(tick);
      tick := tick + 1;
      if !renamed {
        var _ := Remove(tmp);
        return false;
      }
      files := files[dst := files[tmp]] - {tmp};
      return true;
    }

    /** `db exec` of a script on the database at `p`. */
    method Exec(p: string, change: Change) returns (rc: int)
      requires p in files && files[p].Database?
      modifies this`files, this`tick
      ensures tick == old(tick) + 1
      ensures var o := world.exec(old(tick), old(files)[p].content, change);
              && rc == o.rc
              && files == if o.rc == 0 || o.committed then old(files)[p := Database(Committed(old(files)[p].content, change))] else old(files)
    {
      var o := world.exec(tick, files[p].content, change);
      tick := tick + 1;
      if o.Takes() {
        files := files[p := Database(Committed(files[p].content, change))];
      }
      return o.rc;
    }

    /** The step loop on the database at `target`. */
    method ApplySteps(target: string, start: int) returns (rc: int)
      requires Rising(registry) && target in files && files[target].Database?
      requires start == Version(files[target].content) <= Latest(registry)
      modifies this`files, this`tick
      ensures var r := Walk(world, registry, old(tick), old(files)[target].content, start);
              rc == r.rc && files == old(files)[target := Database(r.content)] && tick == r.tick
    {
      var current := start;
      rc := 0;
      assert files == files[target := Database(files[target].content)];
      while current < Latest(registry)
        invariant rc == 0
        invariant target in files && files[target].Database?
        invariant files == old(files)[target := files[target]]
        invariant Walk(world, registry, old(tick), old(files)[target].content, start)
                  == Walk(world, registry, tick, files[target].content, current)
        decreases Latest(registry) - current
      {
        var m := Find(registry, current);
        if m == None { return 2; }
        rc := Exec(target, Migrated(m.value.from, m.value.to));
        if rc != 0 { return 2; }
        current := m.value.to;
      }
    }

    /** `migrate_consolidate_and_vacuum`: the passes, then VACUUM. */
    method Compact(p: string) returns (rc: int, ghost passes: nat)
      requires p in files && files[p].Database?
      modifies this`files, this`tick
      ensures rc == 0 || rc == 2
      ensures passes <= 8 && (rc == 0 ==> passes == 8)
      ensures Obliging(world) && Willing(world) ==> rc == 0
      ensures files == old(files)[p := Database(Compacted(old(files)[p].content, passes))]
    {
      passes := 0;
      assert files == files[p := Database(Compacted(files[p].content, 0))];
      for i := 0 to Compaction.PASSES
        invariant passes == i
        invariant p in files && files == old(files)[p := Database(Compacted(old(files)[p].content, passes))]
      {
        rc := Exec(p, Consolidated);
        if world.exec(tick - 1, Compacted(old(files)[p].content, passes), Consolidated).Takes() {
          passes := passes + 1;
        }
        if rc != 0 { return 2, passes; }
      }
      /* VACUUM rewrites the file and changes no content. */
      var ok := world.io(tick);
      tick := tick + 1;
      return if ok then 0 else 2, passes;
    }

    /** `migrate_preflight`: read-only; on success it has read the version. */
    method Preflight(p: string) returns (ok: bool, version: int)
      modifies this`tick
      ensures ok <==> p in files && files[p].Database? && world.check(old(tick))
      ensures ok ==> version == Version(files[p].content)
      ensures tick == old(tick) + 1
    {
      ok := p in files && files[p].Database? && world.check(tick);
      version := if ok then Version(files[p].content) else -1;
      tick := tick + 1;
    }

    /** The database file is the one before, or as absent. */
    ghost predicate AsBefore(before: map<string, File>, db: string)
      reads this`files
    {
      SameFile(before, files, db)
    }

    /** The database is the one before with whole steps committed; past the last step, also
        consolidations. */
    ghost predicate Advanced(before: map<string, File>, db: string)
      requires Rising(registry)
      reads this`files
    {
      && db in before && before[db].Database? && db in files && files[db].Database?
      && exists mid: Content, n: nat ::
           && ByWholeSteps(registry, before[db].content, mid)
           && files[db].content == Compacted(mid, n)
           && (n > 0 ==> Version(mid) == Latest(registry))
    }

    /** What the read-only checks find, the first of them at call `t`. The schema check is made only for an
        older database whose version has a migration, and not with --force. */
    ghost function Checks(before: map<string, File>, db: string, force: bool, t: nat): Verdict {
      if db !in before then Missing
      else if !before[db].Database? || !world.check(t) then Refused
      else
        var v := Version(before[db].content);
        if v == Latest(registry) then AlreadyLatest
        else if v > Latest(registry) then Refused
        else if !force && Find(registry, v).Some? && !world.check(t + 1) then Refused
        else Proceeds
    }

    /** Every step has been committed, and then eight consolidations. */
    ghost predicate Finished(before: map<string, File>, db: string)
      requires Rising(registry)
      reads this`files
    {
      && db in before && before[db].Database? && db in files && files[db].Database?
      && exists mid: Content ::
           && ByWholeSteps(registry, before[db].content, mid) && Version(mid) == Latest(registry)
           && files[db].content == Compacted(mid, 8)
    }

    /** `do_migrate` without --dry-run. It ends before any write when a check says so: with 0 when the
        database is absent or at the latest version, with 1 when it is refused. Otherwise 3 means the
        database is the file it was, and 2 that it is at a version reached by whole committed steps. Once a
        step may have run, the backup is a complete copy of the starting database, unless --no-backup. With
        0 every step has been committed, and then eight consolidations. */
    method Migrate(db: string, doBackup: bool, force: bool) returns (r: Report)
      requires Rising(registry)
      modifies this`files, this`tick
      ensures r.rc in {0, 1, 2, 3} && r.status == None
      ensures match Checks(old(files), db, force, old(tick))
              case Missing => r == Report(0, None, false) && files == old(files)
              case AlreadyLatest => r == Report(0, None, false) && files == old(files)
              case Refused => r == Report(1, None, false) && files == old(files)
              case Proceeds =>
                && r.rc != 1
                && (r.rc == 0 ==> Finished(old(files), db))
                && (doBackup && |BackupPath(db, Version(old(files)[db].content))| >= 1024 ==> r.rc == 3 && files == old(files))
      ensures r.rc == 0 ==> (db !in old(files) && files == old(files))
                            || (Advanced(old(files), db) && Version(files[db].content) == Latest(registry))
      ensures r.rc == 1 || r.rc == 3 ==> AsBefore(old(files), db)
      ensures r.rc == 2 ==> Advanced(old(files), db)
      ensures r.rc == 2 && !r.stepsFailed ==> Version(files[db].content) == Latest(registry)
      ensures r.rc == 3 ==> doBackup
      ensures doBackup && !AsBefore(old(files), db) ==> BackedUp(old(files), files, db)
      ensures doBackup && r.rc == 2 ==> BackedUp(old(files), files, db)
      ensures r.stepsFailed ==> r.rc == 2 && db in old(files) && old(files)[db].Database?
                                && exists t :: StepsFail(t, old(files)[db].content)
      ensures !doBackup ==> forall q :: q != db ==> SameFile(old(files), files, q)
      ensures Obliging(world) && Willing(world) && Migratable(registry, old(files), db) ==> r.rc == 0
    {
      hide BackedUp, Advanced, Finished, BackupPath, Walk, Willing, Covers, Tidy;
      if db !in files { return Report(0, None, false); }
      var ok, current := Preflight(db);
      if !ok { return Report(1, None, false); }
      if current == Latest(registry) {
        AtLatest(old(files), db);
        return Report(0, None, false);
      }
      if current > Latest(registry) { return Report(1, None, false); }
      if !force {
        var first := Find(registry, current);
        if first.Some? {
          var verified := world.check(tick);
          tick := tick + 1;
          if !verified { return Report(1, None, false); }
        }
      }
      assert Checks(old(files), db, force, old(tick)) == Proceeds;
      if doBackup {
        var copied := BackUp(db, current);
        if !copied { return Report(3, None, false); }
      }
      ghost var ready := files;
      r := Advance(db, current);
      AdvancedFrom(old(files), ready, db);
      if doBackup { BackupKept(old(files), ready, files, db); }
    }

    /** The backup, named after the version the database starts at. */
    method BackUp(db: string, current: int) returns (ok: bool)
      requires db in files && files[db].Database? && current == Version(files[db].content)
      modifies this`files, this`tick
      ensures SameFile(old(files), files, db)
      ensures ok ==> BackedUp(old(files), files, db)
      ensures Obliging(world) && |BackupPath(db, current)| < 1024 ==> ok
      ensures |BackupPath(db, current)| >= 1024 ==> !ok && files == old(files)
    {
      var path := BackupPath(db, current);
      if |path| >= 1024 { return false; }
      BesideNames(db, path);
      DatabaseUntouched(db, path);
      ok := Snapshot(db, path);
    }

    lemma AdvancedFrom(before: map<string, File>, ready: map<string, File>, db: string)
      requires Rising(registry) && SameFile(before, ready, db) && Advanced(ready, db)
      ensures Advanced(before, db)
      ensures Finished(ready, db) ==> Finished(before, db)
    {}

    /** The writing half of a run: the steps, then the passes and VACUUM. */
    method Advance(db: string, current: int) returns (r: Report)
      requires Rising(registry) && db in files && files[db].Database?
      requires current == Version(files[db].content) <= Latest(registry)
      modifies this`files, this`tick
      ensures (r.rc == 0 || r.rc == 2) && r.status == None
      ensures var walked := Walk(world, registry, old(tick), old(files)[db].content, current);
              if walked.rc != 0 then r == Report(2, None, true) && files == old(files)[db := Database(walked.content)]
              else && !r.stepsFailed && Version(walked.content) == Latest(registry)
                   && exists n: nat :: n <= 8 && (r.rc == 0 ==> n == 8)
                                       && files == old(files)[db := Database(Compacted(walked.content, n))]
      ensures Advanced(old(files), db) && (r.rc == 0 ==> Finished(old(files), db))
      ensures !r.stepsFailed ==> Version(files[db].content) == Latest(registry)
      ensures r.stepsFailed ==> r.rc == 2 && exists t :: StepsFail(t, old(files)[db].content)
      ensures Obliging(world) && Willing(world) && Covers(registry, current) ==> r.rc == 0
      ensures forall q :: q != db ==> SameFile(old(files), files, q)
    {
      hide Obliging, Willing, Covers, Walk, ByWholeSteps, Rising, Version, Compacted;
      ghost var t, start := tick, files[db].content;
      ghost var walked := Walk(world, registry, t, start, current);
      WalkSteps(world, registry, t, start, current);
      if Willing(world) && Covers(registry, current) { WalkSucceeds(world, registry, t, start, current); }
      var rc := ApplySteps(db, current);
      NoneCompacted(walked.content);
      if rc != 0 {
        assert StepsFail(t, start);
        return Report(rc, None, true);
      }
      ghost var n: nat;
      rc, n := Compact(db);
      CompactedVersion(walked.content, n);
      assert files[db] == Database(Compacted(walked.content, n));
      return Report(rc, None, false);
    }

    lemma NoneCompacted(c: Content)
      ensures Compacted(c, 0) == c
    {}

    ghost predicate StepsFail(t: nat, c: Content)
      requires Rising(registry)
    {
      Walk(world, registry, t, c, Version(c)).rc != 0
    }

    lemma AtLatest(before: map<string, File>, db: string)
      requires Rising(registry) && files == before && db in files && files[db].Database?
      ensures Advanced(before, db)
    {
      assert files[db].content == Compacted(files[db].content, 0);
    }

    /** `do_migrate` with --dry-run: it writes only to files it names itself beside the database. `from` is
        the call from which the steps ran on a copy, if it came to that: then it reports
        migration-pending exactly when every step ran. It does come to that when nothing outside the
        scripts fails and the database is older than the latest version. */
    method DryRun(db: string, pid: int, force: bool) returns (r: Report, ghost from: Option<nat>)
      requires Rising(registry)
      modifies this`files, this`tick
      ensures r.rc in {0, 1} && r.status.Some?
      ensures r.rc == 0 <==> r.status.value != Blocked
      ensures match Checks(old(files), db, force, old(tick))
              case Missing => r == Report(0, Some(Absent), false) && files == old(files)
              case AlreadyLatest => r == Report(0, Some(UpToDate), false) && files == old(files)
              case Refused => r == Report(1, Some(Blocked), false) && files == old(files)
              case Proceeds =>
                && r.status.value in {Pending, Blocked}
                && (|DryPath(db, pid)| >= 1024 ==> r == Report(1, Some(Blocked), false) && files == old(files))
      ensures from.Some? ==> Checks(old(files), db, force, old(tick)) == Proceeds
      ensures from.Some? && Tidy(world) ==> var path := DryPath(db, pid); path !in files && path + "-wal" !in files && path + "-shm" !in files
      ensures from == None ==> r.status != Some(Pending) && !r.stepsFailed
      ensures from.Some? ==> && db in old(files) && old(files)[db].Database?
                             && (r.status == Some(Pending) <==> !StepsFail(from.value, old(files)[db].content))
                             && (r.stepsFailed <==> StepsFail(from.value, old(files)[db].content))
      ensures Obliging(world) && db in old(files) && old(files)[db].Database? && |DryPath(db, pid)| < 1024 ==>
                var v := Version(old(files)[db].content);
                && (v < Latest(registry) ==> from.Some?)
                && (v == Latest(registry) ==> r.status == Some(UpToDate))
      ensures forall q :: !Beside(q, db) ==> SameFile(old(files), files, q)
    {
      hide Walk, ByWholeSteps, Tidy, Beside, DryPath;
      from := None;
      if db !in files { return Report(0, Some(Absent), false), None; }
      var ok, current := Preflight(db);
      if !ok { return Report(1, Some(Blocked), false), None; }
      ghost var start := files[db].content;
      if current == Latest(registry) { return Report(0, Some(UpToDate), false), None; }
      if current > Latest(registry) { return Report(1, Some(Blocked), false), None; }
      if !force {
        var first := Find(registry, current);
        if first.Some? {
          var verified := world.check(tick);
          tick := tick + 1;
          if !verified { return Report(1, Some(Blocked), false), None; }
        }
      }
      var path := DryPath(db, pid);
      DryPathBeside(db, pid);
      if |path| >= 1024 { return Report(1, Some(Blocked), false), None; }
      BesideNames(db, path);
      DatabaseUntouched(db, path);
      RemoveScratch(path);
      assert SameFile(old(files), files, db);
      var copied := Snapshot(db, path);
      if !copied { return Report(1, Some(Blocked), false), None; }
      from := Some(tick);
      WalkSteps(world, registry, tick, start, current);
      var rc := ApplySteps(path, current);
      RemoveScratch(path);
      if rc == 0 {
        return Report(0, Some(Pending), false), from;
      }
      return Report(1, Some(Blocked), true), from;
    }

    lemma DryPathBeside(db: string, pid: int)
      ensures Beside(DryPath(db, pid), db)
    {}

    lemma StepsForetold(t: nat, u: nat, c: Content)
      requires Rising(registry) && Deterministic(world)
      ensures StepsFail(t, c) == StepsFail(u, c)
    {
      WalkForetells(world, registry, t, u, c, Version(c));
    }

    /** `main` once the arguments are parsed: forcing past the schema check needs a backup. */
    method Run(db: string, doBackup: bool, dryRun: bool, force: bool, pid: int) returns (r: Report)
      requires Rising(registry)
      modifies this`files, this`tick
      ensures force && !doBackup ==> r == Report(1, None, false) && files == old(files)
      ensures (force ==> doBackup) ==>
                match Checks(old(files), db, force, old(tick))
                case Missing => r == Report(0, if dryRun then Some(Absent) else None, false) && files == old(files)
                case AlreadyLatest => r == Report(0, if dryRun then Some(UpToDate) else None, false) && files == old(files)
                case Refused => r == Report(1, if dryRun then Some(Blocked) else None, false) && files == old(files)
                case Proceeds => if dryRun then r.status in {Some(Pending), Some(Blocked)}
                                 else r.rc != 1 && (r.rc == 0 ==> Finished(old(files), db))
      ensures dryRun ==> AsBefore(old(files), db)
      ensures (doBackup || force) && !AsBefore(old(files), db) ==> BackedUp(old(files), files, db)
      ensures r.rc == 1 || r.rc == 3 ==> AsBefore(old(files), db)
      ensures !dryRun && r.rc == 2 ==> Advanced(old(files), db)
      ensures !dryRun && (force ==> doBackup) && Obliging(world) && Willing(world) && Migratable(registry, old(files), db)
              ==> r.rc == 0
      ensures !dryRun && r.rc == 0 ==> db !in files || (files[db].Database? && Version(files[db].content) == Latest(registry))
    {
      if force && !doBackup { return Report(1, None, false); }
      DatabaseFilesAreNotBeside(db);
      if dryRun {
        ghost var from;
        r, from := DryRun(db, pid, force);
      } else {
        r := Migrate(db, doBackup, force);
      }
    }

    /** With scripts whose fate depends on the database alone, a rehearsal that reports
        migration-pending is a promise: no step of the run that follows fails. */
    method RehearseThenMigrate(db: string, pid: int, doBackup: bool, force: bool) returns (dry: Report, run: Report)
      requires Rising(registry)
      modifies this`files, this`tick
      ensures Deterministic(world) && dry.status == Some(Pending) ==> !run.stepsFailed
    {
      hide Deterministic, StepsFail;
      ghost var from;
      dry, from := DryRun(db, pid, force);
      DatabaseFilesAreNotBeside(db);
      ghost var before := files;
      assert SameFile(old(files), before, db);
      run := Migrate(db, doBackup, force);
      if Deterministic(world) && dry.status == Some(Pending) && run.stepsFailed {
        var c := old(files)[db].content;
        ghost var u :| StepsFail(u, c);
        StepsForetold(from.value, u, c);
      }
    }
  }

  // --- Names ---

  function SidecarsOf(p: string): set<string> {
    {p + "-journal", p + "-wal", p + "-shm"}
  }

  /** A database the registry has every step for, under a path short enough for its backup. */
  ghost predicate Migratable(registry: seq<Migration>, before: map<string, File>, db: string) {
    && db in before && before[db].Database?
    && var v := Version(before[db].content);
       v <= Latest(registry) && Covers(registry, v) && |BackupPath(db, v)| < 1024
  }

  /** The backup is a complete copy of the database as it was. */
  ghost predicate BackedUp(before: map<string, File>, after: map<string, File>, db: string) {
    && db in before && before[db].Database?
    && var path := BackupPath(db, Version(before[db].content));
       path in after && after[path] == before[db]
  }

  lemma BackupKept(before: map<string, File>, ready: map<string, File>, after: map<string, File>, db: string)
    requires BackedUp(before, ready, db)
    requires forall q :: q != db ==> SameFile(ready, after, q)
    ensures BackedUp(before, after, db)
  {
    var path := BackupPath(db, Version(before[db].content));
    assert Beside(path, db) && SameFile(ready, after, path);
  }

  /** The same file, or none, in both. */
  predicate SameFile(before: map<string, File>, after: map<string, File>, p: string) {
    (p in before <==> p in after) && (p in before ==> before[p] == after[p])
  }

  /** Not a file a snapshot to `dst` writes. */
  predicate Untouched(q: string, dst: string) {
    q != dst && q != dst + ".tmp" && q !in SidecarsOf(dst) && q !in SidecarsOf(dst + ".tmp")
  }

  lemma NamesDiffer(dst: string)
    ensures dst != dst + ".tmp" && dst !in SidecarsOf(dst) && dst !in SidecarsOf(dst + ".tmp")
    ensures dst + ".tmp" !in SidecarsOf(dst) && dst + ".tmp" !in SidecarsOf(dst + ".tmp")
    ensures SidecarsOf(dst) !! SidecarsOf(dst + ".tmp")
  {
    var n := |dst|;
    forall q | q in SidecarsOf(dst) ensures |q| > n && q[n] == '-' {}
    forall q | q in SidecarsOf(dst + ".tmp") ensures |q| > n && q[n] == '.' {}
  }

  /** Everything a snapshot beside the database writes is beside it. */
  lemma BesideNames(db: string, path: string)
    requires Beside(path, db)
    ensures forall q :: !Untouched(q, path) ==> Beside(q, db)
  {
  }

  lemma DatabaseUntouched(db: string, path: string)
    requires Beside(path, db)
    ensures Untouched(db, path)
  {
    BesideNames(db, path);
    DatabaseFilesAreNotBeside(db);
  }
}
