/** The application's configuration file: the list of recently opened
    projects and the autosave and backup settings, and how an older file is
    brought up to the current layout when it is read. */
module Config {
  import opened Options
  import opened Text
  import opened Sorting

  /** A value of a settings section. */
  datatype Scalar = Flag(flag: bool) | Number(number: real) | Str(str: string)

  /** One entry of the recent-projects list; each of its keys may be missing. */
  datatype Entry = Entry(path: Option<string>, name: Option<string>, timestamp: Option<real>)

  /** The configuration; each top-level key may be missing. */
  datatype Config = Config(recent: Option<seq<Entry>>,
                           recovery: Option<map<string, Scalar>>,
                           backup: Option<map<string, Scalar>>)

  /** What the configuration file holds: nothing, something that cannot be
      opened or is not well-formed JSON, or a configuration. */
  datatype File = Missing | Unreadable | Holds(config: Config)

  const MaxRecent: nat := 10
  const RecoverySuffix := ".abnf.recovery"
  const LegacyInterval := "autosave_interval_min"
  const Interval := "autosave_periodic_interval_min"

  function DefaultRecovery(): map<string, Scalar> {
    map["autosave_enabled" := Flag(true), Interval := Number(10.0)]
  }

  function DefaultBackup(): map<string, Scalar> {
    map["backup_on_save_enabled" := Flag(true), "max_backups_per_project" := Number(10.0)]
  }

  /** The configuration of a first start. */
  function DefaultConfig(): Config {
    Config(Some([]), Some(DefaultRecovery()), Some(DefaultBackup()))
  }

  /** Brings a stored configuration up to the current layout: missing
      sections come from the defaults, the legacy interval key goes, and the
      periodic interval is added unless present. */
  function Migrate(c: Config): Config {
    var recovery := if c.recovery.Some? then c.recovery.value else DefaultRecovery();
    var cleaned := recovery - {LegacyInterval};
    var filled := if Interval in cleaned then cleaned else cleaned[Interval := Number(10.0)];
    Config(c.recent, Some(filled), if c.backup.Some? then c.backup else Some(DefaultBackup()))
  }

  /** The configuration the program works with, given what the file holds. */
  function Loaded(f: File): Config {
    if f.Holds? then Migrate(f.config) else DefaultConfig()
  }

  /** The stored recent-projects list, empty when the key is missing. */
  function Entries(c: Config): seq<Entry> {
    if c.recent.Some? then c.recent.value else []
  }

  /** The elements of `s` that satisfy `p`, in order. */
  function Filter<T>(p: T -> bool, s: seq<T>): (r: seq<T>)
    ensures |r| <= |s|
  {
    if s == [] then [] else (if p(s[0]) then [s[0]] else []) + Filter(p, s[1..])
  }

  /** An entry that may be shown: it has a non-empty path that is not a
      recovery file. */
  predicate Listed(e: Entry) {
    e.path.Some? && e.path.value != "" && !EndsWith(e.path.value, RecoverySuffix)
  }

  /** The time an entry was last opened; a missing one counts as 0. */
  function Stamp(e: Entry): real {
    if e.timestamp.Some? then e.timestamp.value else 0.0
  }

  /** Most recent first. */
  predicate Later(a: real, b: real) {
    a >= b
  }

  /** The recent projects shown to the user: the listed entries, most
      recent first, entries of equal time in their stored order. */
  function RecentList(c: Config): seq<Entry> {
    SortBy(Filter(Listed, Entries(c)), Stamp, Later)
  }

  /** Paths that are never added to the list. */
  predicate Rejected(path: string) {
    path == "" || EndsWith(path, RecoverySuffix)
  }

  /** Entries whose path is not `abs`. */
  function Away(abs: string): Entry -> bool {
    (e: Entry) => e.path != Some(abs)
  }

  /** The list stored after opening the project at absolute path `abs`
      with file name `base` at time `now`. */
  function AddedList(c: Config, abs: string, base: string, now: real): seq<Entry> {
    var l := [Entry(Some(abs), Some(base), Some(now))] + Filter(Away(abs), RecentList(c));
    if |l| <= MaxRecent then l else l[..MaxRecent]
  }

  /** The file after a project at `path` (absolute path `abs`) is opened. */
  function AfterAdd(f: File, path: string, abs: string, base: string, now: real): File {
    if Rejected(path) then f
    else
      var c := Loaded(f);
      Holds(c.(recent := Some(AddedList(c, abs, base, now))))
  }

  /** The file after the project at absolute path `abs` is removed; it is
      written only when an entry went away. */
  function AfterRemove(f: File, abs: string): File {
    var c := Loaded(f);
    var l := Filter(Away(abs), Entries(c));
    if |l| < |Entries(c)| then Holds(c.(recent := Some(l))) else f
  }

  lemma {:induction false} FilterMembers<T>(p: T -> bool, s: seq<T>)
    ensures forall x :: x in Filter(p, s) <==> x in s && p(x)
  {
    if s != [] {
      FilterMembers(p, s[1..]);
      assert s == [s[0]] + s[1..];
    }
  }

  lemma FilterMember<T>(p: T -> bool, s: seq<T>, x: T)
    requires x in Filter(p, s)
    ensures x in s && p(x)
  {
    FilterMembers(p, s);
  }

  /** Filtering shortens a sequence exactly when some element fails the test. */
  lemma {:induction false} FilterShrinks<T>(p: T -> bool, s: seq<T>)
    ensures |Filter(p, s)| < |s| <==> exists i :: 0 <= i < |s| && !p(s[i])
    ensures |Filter(p, s)| == |s| ==> Filter(p, s) == s
  {
    if s != [] {
      FilterShrinks(p, s[1..]);
      if !p(s[0]) {
        assert !p(s[0]);
      } else if |Filter(p, s)| < |s| {
        var i :| 0 <= i < |s[1..]| && !p(s[1..][i]);
        assert !p(s[i + 1]);
      } else {
        forall i | 0 <= i < |s| ensures p(s[i]) {
          if i > 0 {
            assert s[i] == s[1..][i - 1];
          }
        }
        assert s == [s[0]] + s[1..];
      }
    }
  }

  /** Filtering keeps a sorted sequence sorted. */
  lemma {:induction false} FilterSorted<T, K>(p: T -> bool, s: seq<T>, key: T -> K, le: (K, K) -> bool)
    requires SortedBy(s, key, le)
    ensures SortedBy(Filter(p, s), key, le)
  {
    if s != [] {
      var rest := Filter(p, s[1..]);
      FilterSorted(p, s[1..], key, le);
      if p(s[0]) {
        var r := [s[0]] + rest;
        forall i, j | 0 <= i < j < |r| ensures le(key(r[i]), key(r[j])) {
          assert r[j] == rest[j - 1];
          if i > 0 {
            assert r[i] == rest[i - 1];
          } else {
            var x := rest[j - 1];
            assert x in Filter(p, s[1..]);
            FilterMember(p, s[1..], x);
            var m :| 0 <= m < |s[1..]| && s[1..][m] == x;
            assert s[m + 1] == x;
          }
        }
      }
    }
  }

  lemma LaterIsTotalOrder()
    ensures TotalOrder(Later)
  {
  }

  /** The defaults are already in the current layout. */
  lemma DefaultsAreCurrent()
    ensures Migrate(DefaultConfig()) == DefaultConfig()
    ensures Entries(DefaultConfig()) == []
    ensures DefaultConfig().recovery.value["autosave_enabled"] == Flag(true)
    ensures DefaultConfig().recovery.value[Interval] == Number(10.0)
    ensures DefaultConfig().backup.value["backup_on_save_enabled"] == Flag(true)
    ensures DefaultConfig().backup.value["max_backups_per_project"] == Number(10.0)
  {
    assert DefaultRecovery() - {LegacyInterval} == DefaultRecovery();
  }

  /** Migration fills in what is missing and keeps every stored value except
      the legacy interval. */
  lemma MigrateKeeps(c: Config)
    ensures Migrate(c).recent == c.recent
    ensures Migrate(c).recovery.Some? && Migrate(c).backup.Some?
    ensures LegacyInterval !in Migrate(c).recovery.value
    ensures Interval in Migrate(c).recovery.value
    ensures c.recovery.None? ==> Migrate(c).recovery == Some(DefaultRecovery())
    ensures c.recovery.Some? ==>
      forall k :: k in c.recovery.value && k != LegacyInterval ==>
        k in Migrate(c).recovery.value && Migrate(c).recovery.value[k] == c.recovery.value[k]
    ensures c.recovery.Some? ==>
      forall k :: k in Migrate(c).recovery.value ==> k in c.recovery.value || k == Interval
    ensures c.recovery.Some? && Interval !in c.recovery.value ==>
      Migrate(c).recovery.value[Interval] == Number(10.0)
    ensures c.backup.Some? ==> Migrate(c).backup == c.backup
    ensures c.backup.None? ==> Migrate(c).backup == Some(DefaultBackup())
  {
    assert DefaultRecovery() - {LegacyInterval} == DefaultRecovery();
  }

  /** Reading a file that was just migrated changes nothing more. */
  lemma MigrateIdempotent(c: Config)
    ensures Migrate(Migrate(c)) == Migrate(c)
  {
    var m := Migrate(c).recovery.value;
    MigrateKeeps(c);
    assert m - {LegacyInterval} == m;
  }

  /** The shown list holds exactly the listed entries, most recent first,
      and entries of equal time keep their stored order. */
  lemma RecentListOrder(c: Config)
    ensures forall e :: e in RecentList(c) <==> e in Entries(c) && Listed(e)
    ensures SortedBy(RecentList(c), Stamp, Later)
    ensures multiset(RecentList(c)) == multiset(Filter(Listed, Entries(c)))
    ensures forall t :: KeyFilter(RecentList(c), Stamp, t) == KeyFilter(Filter(Listed, Entries(c)), Stamp, t)
  {
    var shown := Filter(Listed, Entries(c));
    FilterMembers(Listed, Entries(c));
    LaterIsTotalOrder();
    SortByIsSorted(shown, Stamp, Later);
    forall e ensures e in RecentList(c) <==> e in shown {
      assert e in RecentList(c) <==> e in multiset(RecentList(c));
      assert e in shown <==> e in multiset(shown);
    }
    forall t ensures KeyFilter(RecentList(c), Stamp, t) == KeyFilter(shown, Stamp, t) {
      SortByIsStable(shown, Stamp, Later, t);
    }
  }

  /** After a project is opened, it heads the list, no other entry has its
      path, the list holds at most ten entries, and the others follow in
      the order the shown list had them. */
  lemma AddedListShape(c: Config, abs: string, base: string, now: real)
    ensures var r := AddedList(c, abs, base, now);
      && 1 <= |r| <= MaxRecent
      && r[0] == Entry(Some(abs), Some(base), Some(now))
      && (forall i :: 1 <= i < |r| ==> r[i].path != Some(abs) && r[i] in RecentList(c))
      && r[1..] == Filter(Away(abs), RecentList(c))[..|r| - 1]
  {
    var r := AddedList(c, abs, base, now);
    var others := Filter(Away(abs), RecentList(c));
    var l := [Entry(Some(abs), Some(base), Some(now))] + others;
    FilterMembers(Away(abs), RecentList(c));
    assert r == l[..|r|];
    forall i | 1 <= i < |r| ensures r[i].path != Some(abs) && r[i] in RecentList(c) {
      assert r[i] == others[i - 1];
      assert others[i - 1] in others;
    }
    assert r[1..] == others[..|r| - 1];
  }

  /** While the list has room, every shown entry with another path survives
      the addition. */
  lemma AddedListKeeps(c: Config, abs: string, base: string, now: real)
    requires |RecentList(c)| < MaxRecent
    ensures forall e :: e in RecentList(c) && e.path != Some(abs) ==> e in AddedList(c, abs, base, now)
  {
    FilterMembers(Away(abs), RecentList(c));
  }

  /** Opening a rejected path leaves the file alone; any other path stores
      the added list in a migrated configuration. */
  lemma AfterAddStores(f: File, path: string, abs: string, base: string, now: real)
    ensures Rejected(path) ==> AfterAdd(f, path, abs, base, now) == f
    ensures !Rejected(path) ==>
      Loaded(AfterAdd(f, path, abs, base, now))
        == Loaded(f).(recent := Some(AddedList(Loaded(f), abs, base, now)))
  {
    if !Rejected(path) {
      var c := Loaded(f);
      var c' := c.(recent := Some(AddedList(c, abs, base, now)));
      if f.Holds? {
        MigrateIdempotent(f.config);
      } else {
        DefaultsAreCurrent();
      }
      assert Migrate(c') == c';
    }
  }

  /** Removal leaves exactly the stored entries with another path, and it
      writes the file exactly when some entry had the path. */
  lemma RemoveDrops(f: File, abs: string)
    ensures forall e :: e in Entries(Loaded(AfterRemove(f, abs))) <==>
      e in Entries(Loaded(f)) && e.path != Some(abs)
    ensures AfterRemove(f, abs) != f <==>
      exists i :: 0 <= i < |Entries(Loaded(f))| && Entries(Loaded(f))[i].path == Some(abs)
  {
    var c := Loaded(f);
    var l := Filter(Away(abs), Entries(c));
    FilterMembers(Away(abs), Entries(c));
    FilterShrinks(Away(abs), Entries(c));
    if f.Holds? {
      MigrateIdempotent(f.config);
      MigrateKeeps(f.config);
    } else {
      DefaultsAreCurrent();
    }
    if |l| < |Entries(c)| {
      var c' := c.(recent := Some(l));
      assert Migrate(c') == c';
      assert Entries(Loaded(AfterRemove(f, abs))) == l;
      assert c'.recent != c.recent;
    }
  }

  /** Removing a project just opened leaves the entries that followed it. */
  lemma AddThenRemove(f: File, path: string, abs: string, base: string, now: real)
    requires !Rejected(path)
    ensures Entries(Loaded(AfterRemove(AfterAdd(f, path, abs, base, now), abs)))
      == AddedList(Loaded(f), abs, base, now)[1..]
  {
    var r := AddedList(Loaded(f), abs, base, now);
    var g := AfterAdd(f, path, abs, base, now);
    AfterAddStores(f, path, abs, base, now);
    AddedListShape(Loaded(f), abs, base, now);
    assert Entries(Loaded(g)) == r;
    var c := Loaded(g);
    var l := Filter(Away(abs), r);
    assert r == [r[0]] + r[1..];
    FilterShrinks(Away(abs), r[1..]);
    assert l == Filter(Away(abs), r[1..]);
    assert Filter(Away(abs), r[1..]) == r[1..];
    assert g.Holds?;
    MigrateIdempotent(g.config);
    var c' := c.(recent := Some(l));
    assert Migrate(c') == c';
  }

  /** When the clock has not gone back, the stored list is already the one
      the next start shows. */
  lemma AddThenShow(f: File, path: string, abs: string, base: string, now: real)
    requires !Rejected(path) && abs != "" && !EndsWith(abs, RecoverySuffix)
    requires forall e :: e in Entries(Loaded(f)) ==> Stamp(e) <= now
    ensures RecentList(Loaded(AfterAdd(f, path, abs, base, now))) == AddedList(Loaded(f), abs, base, now)
  {
    var c := Loaded(f);
    var r := AddedList(c, abs, base, now);
    AfterAddStores(f, path, abs, base, now);
    AddedListShape(c, abs, base, now);
    RecentListOrder(c);
    assert Entries(Loaded(AfterAdd(f, path, abs, base, now))) == r;
    var others := Filter(Away(abs), RecentList(c));
    FilterSorted(Away(abs), RecentList(c), Stamp, Later);
    assert SortedBy(r, Stamp, Later) by {
      forall i, j | 0 <= i < j < |r| ensures Later(Stamp(r[i]), Stamp(r[j])) {
        assert r[j] == others[j - 1];
        if i > 0 {
          assert r[i] == others[i - 1];
        } else {
          assert r[j] in RecentList(c);
        }
      }
    }
    assert forall i :: 0 <= i < |r| ==> Listed(r[i]);
    FilterShrinks(Listed, r);
    assert Filter(Listed, r) == r;
    LaterIsTotalOrder();
    SortByIsTheStableSort(r, r, Stamp, Later);
  }

  /** The configuration file as the program reads and writes it. */
  class ConfigStore {
    var file: File

    constructor (f: File)
      ensures file == f
    {
      file := f;
    }

    /** Reads the configuration, falling back to the defaults and migrating
        a stored one step by step. */
    method Load() returns (c: Config)
      ensures c == Loaded(file)
    {
      if !file.Holds? {
        return DefaultConfig();
      }
      c := file.config;
      var defaults := DefaultConfig();
      if c.recovery.None? {
        c := c.(recovery := defaults.recovery);
      }
      var recovery := c.recovery.value;
      if LegacyInterval in recovery {
        recovery := recovery - {LegacyInterval};
      }
      if Interval !in recovery {
        recovery := recovery[Interval := defaults.recovery.value[Interval]];
      }
      c := c.(recovery := Some(recovery));
      if c.backup.None? {
        c := c.(backup := defaults.backup);
      }
      assert c.recovery.value == Migrate(file.config).recovery.value;
    }

    method Save(c: Config)
      modifies this
      ensures file == Holds(c)
    {
      file := Holds(c);
    }

    /** The recent projects to show. */
    method RecentProjects() returns (r: seq<Entry>)
      ensures r == RecentList(Loaded(file))
    {
      var c := Load();
      r := Filter(Listed, Entries(c));
      r := SortBy(r, Stamp, Later);
    }

    /** Records that the project at `path` was opened; `abs` is its absolute
        path, `base` that path's file name and `now` the current time. */
    method AddRecentProject(path: string, abs: string, base: string, now: real)
      modifies this
      ensures file == AfterAdd(old(file), path, abs, base, now)
    {
      if path == "" {
        return;
      }
      if EndsWith(path, RecoverySuffix) {
        return;
      }
      var c := Load();
      var projects := RecentProjects();
      projects := Filter(Away(abs), projects);
      projects := [Entry(Some(abs), Some(base), Some(now))] + projects;
      if |projects| > MaxRecent {
        projects := projects[..MaxRecent];
      }
      c := c.(recent := Some(projects));
      Save(c);
    }

    /** Removes every entry of the project at absolute path `abs`, writing
        the file only if one was there. */
    method RemoveRecentProject(abs: string)
      modifies this
      ensures file == AfterRemove(old(file), abs)
    {
      var c := Load();
      var projects := Entries(c);
      var updated := Filter(Away(abs), projects);
      if |updated| < |projects| {
        c := c.(recent := Some(updated));
        Save(c);
      }
    }
  }
}
