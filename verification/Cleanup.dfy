/**
 Log clean-up of one port pair: a retention pass over its session files, then a quota pass that deletes the
 oldest ones. The order in which directories list their entries is arbitrary; what cannot be opened, examined
 or deleted is an input.
 */
module Cleanup {
  import opened Bytes

  const MAX_PER_PORT2_BYTES: nat := 1024 * 1024 * 1024

  datatype Path = Path(dir: string, name: string)

  datatype Info = Info(size: nat, mtime: int)

  datatype Item = Item(path: Path, size: nat, mtime: int)

  /** Date directories that cannot be opened, files that cannot be examined, files that cannot be deleted. */
  datatype Faults = Faults(closed: set<string>, blind: set<Path>, stuck: set<Path>)

  predicate EndsWith(name: string, suffix: string) {
    |suffix| < |name| && name[|name| - |suffix|..] == suffix
  }

  predicate IsSessionFile(name: string) {
    EndsWith(name, ".tlog") || EndsWith(name, ".bin")
  }

  predicate Hidden(name: string) {
    name != "" && name[0] == '.'
  }

  predicate OpenDir(dir: string, f: Faults) {
    !Hidden(dir) && dir !in f.closed
  }

  /** A session file that the passes find and can examine. */
  predicate Visible(p: Path, f: Faults) {
    OpenDir(p.dir, f) && !Hidden(p.name) && IsSessionFile(p.name) && p !in f.blind
  }

  // ---------------------------------------------------------------- the quota pass over a sorted list

  function Sum(items: seq<Item>): nat {
    if items == [] then 0 else items[0].size + Sum(items[1..])
  }

  /** The files deleted, from the head of the list while the total is over the quota. */
  function Sweep(items: seq<Item>, total: int, stuck: set<Path>): seq<Item>
    decreases |items|
  {
    if items == [] || total <= MAX_PER_PORT2_BYTES then []
    else if items[0].path in stuck then Sweep(items[1..], total, stuck)
    else [items[0]] + Sweep(items[1..], total - items[0].size, stuck)
  }

  /** The files that stay. */
  function Kept(items: seq<Item>, total: int, stuck: set<Path>): seq<Item>
    decreases |items|
  {
    if items == [] || total <= MAX_PER_PORT2_BYTES then items
    else if items[0].path in stuck then [items[0]] + Kept(items[1..], total, stuck)
    else Kept(items[1..], total - items[0].size, stuck)
  }

  function Stuck(items: seq<Item>, stuck: set<Path>): seq<Item> {
    if items == [] then []
    else if items[0].path in stuck then [items[0]] + Stuck(items[1..], stuck)
    else Stuck(items[1..], stuck)
  }

  predicate ByAge(items: seq<Item>) {
    forall i, j :: 0 <= i < j < |items| ==> items[i].mtime <= items[j].mtime
  }

  lemma {:induction false} SweepParts(items: seq<Item>, total: int, stuck: set<Path>)
    ensures Sum(Sweep(items, total, stuck)) + Sum(Kept(items, total, stuck)) == Sum(items)
    ensures multiset(Sweep(items, total, stuck)) + multiset(Kept(items, total, stuck)) == multiset(items)
    decreases |items|
  {
    if items != [] && total > MAX_PER_PORT2_BYTES {
      assert items == [items[0]] + items[1..];
      var left := if items[0].path in stuck then total else total - items[0].size;
      SweepParts(items[1..], left, stuck);
    }
  }

  lemma SweepEnds(items: seq<Item>, total: int, stuck: set<Path>)
    requires items == [] || total <= MAX_PER_PORT2_BYTES
    ensures Sweep(items, total, stuck) == []
  {
  }

  lemma SweepHead(items: seq<Item>, total: int, stuck: set<Path>)
    requires items != [] && total > MAX_PER_PORT2_BYTES
    ensures Sweep(items, total, stuck) ==
      if items[0].path in stuck then Sweep(items[1..], total, stuck)
      else [items[0]] + Sweep(items[1..], total - items[0].size, stuck)
  {
  }

  lemma {:induction false} SweepFrom(items: seq<Item>, total: int, stuck: set<Path>)
    ensures forall d <- Sweep(items, total, stuck) :: d in items && d.path !in stuck
    decreases |items|
  {
    if items != [] && total > MAX_PER_PORT2_BYTES {
      SweepFrom(items[1..], if items[0].path in stuck then total else total - items[0].size, stuck);
    }
  }

  /** No deleted file is newer than one that stays, unless that one could not be deleted. */
  lemma {:induction false} OldestFirst(items: seq<Item>, total: int, stuck: set<Path>)
    requires ByAge(items)
    ensures forall d <- Sweep(items, total, stuck), k <- Kept(items, total, stuck) :: k.path in stuck || d.mtime <= k.mtime
    decreases |items|
  {
    if items != [] && total > MAX_PER_PORT2_BYTES {
      var left := if items[0].path in stuck then total else total - items[0].size;
      OldestFirst(items[1..], left, stuck);
      SweepParts(items[1..], left, stuck);
      assert forall k <- Kept(items[1..], left, stuck) :: k in multiset(items[1..]);
    }
  }

  /** Every deletion happens while the total is still over the quota, so no deletion could be left out. */
  lemma {:induction false} OnlyWhileOver(items: seq<Item>, total: int, stuck: set<Path>, n: nat)
    requires n < |Sweep(items, total, stuck)|
    ensures total - Sum(Sweep(items, total, stuck)[..n]) > 1073741824
    decreases |items|
  {
    var deleted := Sweep(items, total, stuck);
    if items[0].path in stuck {
      OnlyWhileOver(items[1..], total, stuck, n);
    } else if n > 0 {
      var left := total - items[0].size;
      OnlyWhileOver(items[1..], left, stuck, n - 1);
      assert deleted[..n][1..] == Sweep(items[1..], left, stuck)[..n - 1];
    }
  }

  lemma SumCons(x: Item, items: seq<Item>)
    ensures Sum([x] + items) == x.size + Sum(items)
  {
  }

  lemma {:induction false} StuckBound(items: seq<Item>, stuck: set<Path>)
    ensures Sum(Stuck(items, stuck)) <= Sum(items)
  {
    if items != [] {
      StuckBound(items[1..], stuck);
      SumCons(items[0], Stuck(items[1..], stuck));
    }
  }

  /** The pass brings the total down to the quota exactly when the files that cannot be deleted fit in it. */
  lemma {:induction false} WithinQuotaExactlyWhen(items: seq<Item>, stuck: set<Path>, above: nat)
    ensures var kept := above + Sum(Kept(items, above + Sum(items), stuck));
            kept <= 1073741824 <==> above + Sum(Stuck(items, stuck)) <= 1073741824
    decreases |items|
  {
    StuckBound(items, stuck);
    if items != [] && above + Sum(items) > MAX_PER_PORT2_BYTES {
      if items[0].path in stuck {
        SumCons(items[0], Kept(items[1..], above + Sum(items), stuck));
        SumCons(items[0], Stuck(items[1..], stuck));
        WithinQuotaExactlyWhen(items[1..], stuck, above + items[0].size);
      } else {
        WithinQuotaExactlyWhen(items[1..], stuck, above);
      }
    }
  }

  /** If every deletion succeeds the surviving total is within the quota. */
  lemma {:induction false} NothingStuck(items: seq<Item>)
    ensures Stuck(items, {}) == []
  {
    if items != [] {
      NothingStuck(items[1..]);
    }
  }

  lemma QuotaIsKept(items: seq<Item>)
    ensures Sum(Kept(items, Sum(items), {})) <= 1073741824
  {
    NothingStuck(items);
    WithinQuotaExactlyWhen(items, {}, 0);
  }

  // ---------------------------------------------------------------- sorting

  lemma InsertedByAge(a: seq<Item>, x: Item, b: seq<Item>)
    requires ByAge(a + b)
    requires (forall y <- a :: y.mtime <= x.mtime) && (b != [] ==> x.mtime < b[0].mtime)
    ensures ByAge(a + [x] + b)
    ensures multiset(a + [x] + b) == multiset(a + b) + multiset{x}
  {
    var s := a + [x] + b;
    forall i, j | 0 <= i < j < |s| ensures s[i].mtime <= s[j].mtime {
      var k, l := if i <= |a| then i else i - 1, if j <= |a| then j else j - 1;
      assert i != |a| ==> s[i] == (a + b)[k];
      assert j != |a| ==> s[j] == (a + b)[l];
      assert j > |a| ==> b[0] == (a + b)[|a|];
    }
  }

  method Insert(items: seq<Item>, x: Item) returns (r: seq<Item>)
    requires ByAge(items)
    ensures ByAge(r) && multiset(r) == multiset(items) + multiset{x}
  {
    var at := 0;
    while at < |items| && items[at].mtime <= x.mtime
      invariant at <= |items| && forall y <- items[..at] :: y.mtime <= x.mtime
    {
      at := at + 1;
    }
    assert items == items[..at] + items[at..];
    InsertedByAge(items[..at], x, items[at..]);
    r := items[..at] + [x] + items[at..];
  }

  /** Stands for `std::sort`: the passes rely on its result being ordered and a permutation only. */
  method SortByAge(items: seq<Item>) returns (sorted: seq<Item>)
    ensures ByAge(sorted) && multiset(sorted) == multiset(items)
  {
    sorted := [];
    for i := 0 to |items|
      invariant ByAge(sorted) && multiset(sorted) == multiset(items[..i])
    {
      assert items[..i + 1] == items[..i] + [items[i]];
      sorted := Insert(sorted, items[i]);
    }
    assert items[..|items|] == items;
  }

  // ---------------------------------------------------------------- the log directory

  function AsItem(p: Path, files: map<Path, Info>): Item
    requires p in files
  {
    Item(p, files[p].size, files[p].mtime)
  }

  ghost predicate Distinct<T>(s: seq<T>) {
    forall i, j :: 0 <= i < j < |s| ==> s[i] != s[j]
  }

  /** The list holds exactly the visible session files, each once. */
  ghost predicate ListsVisible(items: seq<Item>, files: map<Path, Info>, f: Faults) {
    && Distinct(items)
    && (forall x <- items :: x.path in files && Visible(x.path, f) && x == AsItem(x.path, files))
    && (forall p <- files :: Visible(p, f) ==> AsItem(p, files) in items)
  }

  function Paths(items: seq<Item>): set<Path> {
    set x <- items :: x.path
  }

  function Dirs(items: seq<Item>): set<string> {
    set x <- items :: x.path.dir
  }

  /** Session files past the cut-off that can be deleted. */
  function Expired(files: map<Path, Info>, cutoff: nat, now: int, f: Faults): set<Path> {
    set p <- files.Keys | Visible(p, f) && now - files[p].mtime > cutoff && p !in f.stuck
  }

  predicate Named(name: string, stem: string, suffix: string) {
    stem != "" && name == stem + suffix && stem[0] != '.'
  }

  lemma NamedExactlyWhen(name: string, suffix: string)
    ensures EndsWith(name, suffix) && !Hidden(name) <==> exists stem :: Named(name, stem, suffix)
  {
    if EndsWith(name, suffix) && !Hidden(name) {
      var stem := name[..|name| - |suffix|];
      assert Named(name, stem, suffix);
    }
    forall stem | Named(name, stem, suffix) ensures EndsWith(name, suffix) && !Hidden(name) {
      assert name[0] == stem[0];
    }
  }

  /**
   The retention pass keeps a file exactly when it was last written within the cut-off, is no `<stem>.tlog` or
   `<stem>.bin`, is out of sight, or cannot be deleted.
   */
  lemma RetainedExactlyWhen(files: map<Path, Info>, cutoff: nat, now: int, f: Faults, p: Path)
    requires p in files
    ensures p in files - Expired(files, cutoff, now, f) <==>
            || files[p].mtime >= now - cutoff
            || (forall stem :: !Named(p.name, stem, ".tlog") && !Named(p.name, stem, ".bin"))
            || (p.dir != "" && p.dir[0] == '.') || p.dir in f.closed || p in f.blind || p in f.stuck
  {
    NamedExactlyWhen(p.name, ".tlog");
    NamedExactlyWhen(p.name, ".bin");
    hide EndsWith, Named;
  }

  predicate Empty(files: map<Path, Info>, dir: string) {
    forall p <- files.Keys :: p.dir != dir
  }

  /** The directories left after removing those of `tried` that are empty. */
  function DirsLeft(dirs: set<string>, files: map<Path, Info>, tried: set<string>): set<string> {
    set d <- dirs | !(d in tried && Empty(files, d))
  }

  function ExpiredIn(dirs: set<string>, files: map<Path, Info>, cutoff: nat, now: int, f: Faults): set<Path> {
    set p <- Expired(files, cutoff, now, f) | p.dir in dirs
  }

  lemma ExpiredStep(done: set<string>, dir: string, files: map<Path, Info>, cutoff: nat, now: int, f: Faults)
    requires dir !in done
    ensures var gone, next := ExpiredIn(done, files, cutoff, now, f), ExpiredIn({dir}, files, cutoff, now, f);
            && ExpiredIn(done + {dir}, files, cutoff, now, f) == gone + next
            && ExpiredIn({dir}, files - gone, cutoff, now, f) == next
            && files - gone - next == files - (gone + next)
            && (!OpenDir(dir, f) ==> next == {})
  {
  }

  lemma ExpiredInDir(dir: string, files: map<Path, Info>, cutoff: nat, now: int, f: Faults)
    ensures forall p <- ExpiredIn({dir}, files, cutoff, now, f) :: p.dir == dir
  {
  }

  lemma DirsLeftNone(dirs: set<string>, files: map<Path, Info>)
    ensures DirsLeft(dirs, files, {}) == dirs
  {
  }

  /** Taking files out of one directory, and then trying to remove it. */
  lemma DirsLeftStep(dirs: set<string>, files: map<Path, Info>, tried: set<string>, gone: set<Path>, dir: string)
    requires forall p <- gone :: p.dir == dir
    ensures DirsLeft(DirsLeft(dirs, files, tried), files - gone, {dir}) == DirsLeft(dirs, files - gone, tried + {dir})
  {
    assert Empty(files, dir) ==> Empty(files - gone, dir);
    forall d | d != dir ensures Empty(files, d) <==> Empty(files - gone, d) {
      assert forall p <- files.Keys :: p.dir == d ==> p in (files - gone).Keys;
    }
  }

  class LogDir {
    var files: map<Path, Info>
    var dirs: set<string>

    /** Every file lies in a directory that is there. */
    ghost predicate Valid()
      reads this
    {
      forall p <- files :: p.dir in dirs
    }

    method ListDirs() returns (names: seq<string>)
      ensures Distinct(names) && forall d :: d in names <==> d in dirs
    {
      names := [];
      var left := dirs;
      while left != {}
        invariant left <= dirs && Distinct(names)
        invariant forall d :: d in names <==> d in dirs && d !in left
        decreases |left|
      {
        var d :| d in left;
        names, left := names + [d], left - {d};
      }
    }

    method ListFiles(dir: string) returns (paths: seq<Path>)
      ensures Distinct(paths) && forall p :: p in paths <==> p in files && p.dir == dir
    {
      paths := [];
      var left := set p <- files.Keys | p.dir == dir;
      while left != {}
        invariant Distinct(paths) && forall p <- left :: p in files && p.dir == dir
        invariant forall p :: p in paths <==> p in files && p.dir == dir && p !in left
        decreases |left|
      {
        var p :| p in left;
        paths, left := paths + [p], left - {p};
      }
    }

    method Unlink(p: Path, f: Faults) returns (ok: bool)
      requires p in files
      modifies this`files
      ensures ok <==> p !in f.stuck
      ensures files == if ok then old(files) - {p} else old(files)
    {
      ok := p !in f.stuck;
      if ok {
        files := files - {p};
      }
    }

    /** Removes the directory if nothing at all is left in it. */
    method Rmdir(dir: string)
      requires Valid()
      modifies this`dirs
      ensures Valid() && dirs == DirsLeft(old(dirs), files, {dir})
    {
      if Empty(files, dir) {
        dirs := dirs - {dir};
      }
    }

    /** One date directory of the retention pass. */
    method RetainDir(dir: string, cutoff: nat, now: int, f: Faults)
      requires Valid() && OpenDir(dir, f)
      modifies this
      ensures Valid() && dirs == DirsLeft(old(dirs), files, {dir})
      ensures files == old(files) - ExpiredIn({dir}, old(files), cutoff, now, f)
    {
      var paths := ListFiles(dir);
      var remaining := 0;
      ghost var gone: set<Path> := {};
      ghost var kept := Path(dir, "");
      for i := 0 to |paths|
        invariant Valid() && files == old(files) - gone && dirs == old(dirs)
        invariant forall p :: p in gone <==> p in paths[..i] && p in Expired(old(files), cutoff, now, f)
        invariant remaining > 0 ==> kept in files && kept in paths[..i]
      {
        var p := paths[i];
        assert p in paths && p !in gone;
        assert p.dir == dir && p in files;
        var removed := false;
        if Hidden(p.name) {
          continue;
        }
        if IsSessionFile(p.name) && p !in f.blind {
          if now - files[p].mtime > cutoff {
            removed := Unlink(p, f);
            if removed {
              gone := gone + {p};
            }
          }
        }
        if !removed {
          remaining := remaining + 1;
          kept := p;
        }
      }
      assert gone == ExpiredIn({dir}, old(files), cutoff, now, f) by {
        forall p <- Expired(old(files), cutoff, now, f) | p.dir == dir ensures p in paths[..|paths|] {
          assert p in paths;
        }
      }
      if remaining == 0 {
        Rmdir(dir);
      } else {
        assert kept in paths;
      }
    }

    /** Deletes exactly the expired session files that can be deleted; no cut-off means keep forever. */
    method RetentionPass(cutoff: Option<nat>, now: int, f: Faults)
      requires Valid()
      modifies this
      ensures Valid()
      ensures files == if cutoff.Some? then old(files) - Expired(old(files), cutoff.value, now, f) else old(files)
      ensures dirs == DirsLeft(old(dirs), files, if cutoff.Some? then set d <- old(dirs) | OpenDir(d, f) else {})
    {
      if cutoff.None? {
        return;
      }
      var names := ListDirs();
      ghost var done: set<string>, tried: set<string> := {}, {};
      DirsLeftNone(dirs, files);
      for i := 0 to |names|
        invariant Valid() && files == old(files) - ExpiredIn(done, old(files), cutoff.value, now, f)
        invariant dirs == DirsLeft(old(dirs), files, tried)
        invariant (forall d :: d in done <==> d in names[..i]) && tried == set d <- done | OpenDir(d, f)
      {
        hide DirsLeft, ExpiredIn, Expired, OpenDir;
        var dir := names[i];
        assert names[..i + 1] == names[..i] + [dir] && dir !in names[..i];
        ExpiredStep(done, dir, old(files), cutoff.value, now, f);
        if OpenDir(dir, f) {
          ExpiredInDir(dir, files, cutoff.value, now, f);
          DirsLeftStep(old(dirs), files, tried, ExpiredIn({dir}, files, cutoff.value, now, f), dir);
          RetainDir(dir, cutoff.value, now, f);
          tried := tried + {dir};
        }
        done := done + {dir};
      }
      assert names[..|names|] == names;
      assert done == old(dirs);
      assert ExpiredIn(done, old(files), cutoff.value, now, f) == Expired(old(files), cutoff.value, now, f);
    }

    /** Gathers the visible session files and their total size. */
    method Gather(f: Faults) returns (items: seq<Item>, total: nat)
      requires Valid()
      ensures ListsVisible(items, files, f) && total == Sum(items)
    {
      items, total := [], 0;
      var names := ListDirs();
      for i := 0 to |names|
        invariant Gathered(items, files, names[..i], f) && total == Sum(items)
      {
        if OpenDir(names[i], f) {
          var more, size := GatherDir(names[i], f);
          JoinGathered(items, more, files, names[..i], names[i], f);
          SumAppend(items, more);
          items, total := items + more, total + size;
        }
        assert names[..i + 1] == names[..i] + [names[i]];
      }
      assert names[..|names|] == names;
    }

    method GatherDir(dir: string, f: Faults) returns (items: seq<Item>, total: nat)
      requires OpenDir(dir, f)
      ensures Gathered(items, files, [dir], f) && total == Sum(items)
    {
      items, total := [], 0;
      var paths := ListFiles(dir);
      for i := 0 to |paths|
        invariant Distinct(items) && total == Sum(items)
        invariant forall x <- items :: x.path in files && Visible(x.path, f) && x == AsItem(x.path, files) && x.path in paths[..i]
        invariant forall p <- paths[..i] :: p in files && (Visible(p, f) ==> AsItem(p, files) in items)
      {
        var p := paths[i];
        assert p in paths && p !in paths[..i];
        if Hidden(p.name) || !IsSessionFile(p.name) || p in f.blind {
          continue;
        }
        SumAppend(items, [AsItem(p, files)]);
        items, total := items + [AsItem(p, files)], total + files[p].size;
      }
      assert paths[..|paths|] == paths;
    }

    /** Deletes from the head of the list on, while the total is over the quota. */
    method DeleteWhileOver(sorted: seq<Item>, sum: nat, f: Faults)
      requires Valid() && Deletable(sorted, files)
      modifies this
      ensures Valid() && files == old(files) - Paths(Sweep(sorted, sum, f.stuck))
      ensures dirs == DirsLeft(old(dirs), files, Dirs(Sweep(sorted, sum, f.stuck)))
    {
      hide DirsLeft, Deletable, Sweep;
      DirsLeftNone(dirs, files);
      var total: int := sum;
      ghost var gone: seq<Item> := [];
      assert Dirs(gone) == {};
      for i := 0 to |sorted|
        invariant Valid() && files == old(files) - Paths(gone) && dirs == DirsLeft(old(dirs), files, Dirs(gone))
        invariant Deletable(sorted[i..], files)
        invariant Sweep(sorted, sum, f.stuck) == gone + Sweep(sorted[i..], total, f.stuck)
      {
        if total <= MAX_PER_PORT2_BYTES {
          SweepEnds(sorted[i..], total, f.stuck);
          assert gone + [] == gone;
          return;
        }
        var x := sorted[i];
        assert sorted[i..][0] == x && sorted[i..][1..] == sorted[i + 1..];
        SweepHead(sorted[i..], total, f.stuck);
        DeletableRest(sorted[i..], files);
        DirsLeftStep(old(dirs), files, Dirs(gone), {x.path}, x.path.dir);
        var ok := Unlink(x.path, f);
        if ok {
          PathsSnoc(gone, x);
          gone := gone + [x];
          total := total - x.size;
          Rmdir(x.path.dir);
        }
      }
      SweepEnds(sorted[|sorted|..], total, f.stuck);
      assert gone + [] == gone;
    }

    /** The files deleted are those of a sweep over the visible session files, oldest first. */
    method EnforceQuota(f: Faults) returns (sorted: seq<Item>)
      requires Valid()
      modifies this
      ensures Valid()
      ensures ByAge(sorted) && ListsVisible(sorted, old(files), f)
      ensures files == old(files) - Paths(Sweep(sorted, Sum(sorted), f.stuck))
      ensures dirs == DirsLeft(old(dirs), files, Dirs(Sweep(sorted, Sum(sorted), f.stuck)))
    {
      var items, total := Gather(f);
      sorted := SortByAge(items);
      SameListed(items, sorted, files, f);
      if total <= MAX_PER_PORT2_BYTES {
        return;
      }
      ListedDeletable(sorted, files, f);
      DeleteWhileOver(sorted, total, f);
    }

    /** Retention first, then the quota, which holds even for entries that are kept forever. */
    method CleanupForPort2(cutoff: Option<nat>, now: int, f: Faults) returns (sorted: seq<Item>)
      requires Valid()
      modifies this
      ensures Valid()
      ensures var retained := if cutoff.Some? then old(files) - Expired(old(files), cutoff.value, now, f) else old(files);
              && ByAge(sorted) && ListsVisible(sorted, retained, f)
              && files == retained - Paths(Sweep(sorted, Sum(sorted), f.stuck))
    {
      RetentionPass(cutoff, now, f);
      sorted := EnforceQuota(f);
    }
  }

  ghost predicate Gathered(items: seq<Item>, files: map<Path, Info>, names: seq<string>, f: Faults) {
    && Distinct(items)
    && (forall x <- items :: x.path in files && Visible(x.path, f) && x == AsItem(x.path, files) && x.path.dir in names)
    && (forall p <- files :: Visible(p, f) && p.dir in names ==> AsItem(p, files) in items)
  }

  lemma JoinGathered(a: seq<Item>, b: seq<Item>, files: map<Path, Info>, names: seq<string>, dir: string, f: Faults)
    requires Gathered(a, files, names, f) && Gathered(b, files, [dir], f) && dir !in names
    ensures Gathered(a + b, files, names + [dir], f)
  {
    var s := a + b;
    forall i, j | 0 <= i < j < |s| ensures s[i] != s[j] {
      assert i < |a| <= j ==> s[i] in a && s[j] in b;
    }
  }

  lemma {:induction false} SumAppend(a: seq<Item>, b: seq<Item>)
    ensures Sum(a + b) == Sum(a) + Sum(b)
  {
    if a == [] {
      assert a + b == b;
    } else {
      SumAppend(a[1..], b);
      assert (a + b)[1..] == a[1..] + b;
    }
  }

  lemma Without(b: seq<Item>, x: Item, rest: multiset<Item>) returns (c: seq<Item>)
    requires multiset(b) == rest + multiset{x}
    ensures multiset(c) == rest && Sum(b) == x.size + Sum(c)
  {
    assert x in multiset(b);
    var i :| 0 <= i < |b| && b[i] == x;
    c := b[..i] + b[i + 1..];
    assert b == b[..i] + ([x] + b[i + 1..]);
    assert multiset(b) == multiset(c) + multiset{x};
    assert forall y :: multiset(b)[y] == rest[y] + multiset{x}[y];
    SumAppend(b[..i], b[i + 1..]);
    SumAppend(b[..i], [x] + b[i + 1..]);
  }

  lemma {:induction false} SumPermuted(a: seq<Item>, b: seq<Item>)
    requires multiset(a) == multiset(b)
    ensures Sum(a) == Sum(b)
  {
    if a == [] {
      assert |b| == |multiset(b)| == |multiset(a)|;
    } else {
      assert a == [a[0]] + a[1..];
      var c := Without(b, a[0], multiset(a[1..]));
      SumPermuted(a[1..], c);
    }
  }

  lemma {:induction false} DistinctCounts(s: seq<Item>)
    ensures Distinct(s) <==> forall x :: multiset(s)[x] <= 1
  {
    if s != [] {
      var n := |s| - 1;
      var init, last := s[..n], s[n];
      DistinctCounts(init);
      assert s == init + [last];
      assert forall x :: multiset(s)[x] == multiset(init)[x] + if x == last then 1 else 0;
      assert last in init <==> multiset(init)[last] >= 1;
      DistinctSnoc(init, last);
    }
  }

  lemma DistinctSnoc(init: seq<Item>, last: Item)
    ensures Distinct(init + [last]) <==> Distinct(init) && last !in init
  {
    var s := init + [last];
    if Distinct(s) {
      forall i, j | 0 <= i < j < |init| ensures init[i] != init[j] {
        assert s[i] != s[j];
      }
      forall i | 0 <= i < |init| ensures init[i] != last {
        assert s[i] != s[|init|];
      }
    }
  }

  lemma SameListed(a: seq<Item>, b: seq<Item>, files: map<Path, Info>, f: Faults)
    requires multiset(a) == multiset(b) && ListsVisible(a, files, f)
    ensures ListsVisible(b, files, f) && Sum(a) == Sum(b)
  {
    SumPermuted(a, b);
    DistinctCounts(a);
    DistinctCounts(b);
    assert forall x :: x in a <==> x in multiset(a);
    assert forall x :: x in b <==> x in multiset(b);
  }

  /** The files of the list are there, each under a path of its own. */
  ghost predicate Deletable(items: seq<Item>, files: map<Path, Info>) {
    && (forall i :: 0 <= i < |items| ==> items[i].path in files)
    && (forall i, j :: 0 <= i < j < |items| ==> items[i].path != items[j].path)
  }

  lemma PathsSnoc(items: seq<Item>, x: Item)
    ensures Paths(items + [x]) == Paths(items) + {x.path} && Dirs(items + [x]) == Dirs(items) + {x.path.dir}
  {
  }

  lemma DeletableRest(items: seq<Item>, files: map<Path, Info>)
    requires items != [] && Deletable(items, files)
    ensures items[0].path in files
    ensures Deletable(items[1..], files) && Deletable(items[1..], files - {items[0].path})
  {
  }

  lemma ListedDeletable(items: seq<Item>, files: map<Path, Info>, f: Faults)
    requires ListsVisible(items, files, f)
    ensures Deletable(items, files)
  {
    forall i, j | 0 <= i < j < |items| ensures items[i].path != items[j].path {
      assert items[i] in items && items[j] in items;
    }
  }

  /** A list without repetitions falls apart into lists without repetitions or common members. */
  lemma DistinctParts(all: seq<Item>, a: seq<Item>, b: seq<Item>)
    requires Distinct(all) && multiset(a) + multiset(b) == multiset(all)
    ensures Distinct(b) && forall x :: x in b <==> x in all && x !in a
  {
    DistinctCounts(all);
    DistinctCounts(b);
    hide Distinct;
    assert forall x :: multiset(all)[x] == multiset(a)[x] + multiset(b)[x];
    assert forall x :: (x in all <==> x in multiset(all)) && (x in a <==> x in multiset(a)) && (x in b <==> x in multiset(b));
  }

  /** The files that stay are the visible session files still there. */
  lemma KeptRemain(sorted: seq<Item>, total: int, files: map<Path, Info>, f: Faults)
    requires ListsVisible(sorted, files, f)
    ensures ListsVisible(Kept(sorted, total, f.stuck), files - Paths(Sweep(sorted, total, f.stuck)), f)
  {
    hide Sweep, Kept, Visible, Distinct;
    var gone, kept := Sweep(sorted, total, f.stuck), Kept(sorted, total, f.stuck);
    SweepParts(sorted, total, f.stuck);
    SweepFrom(sorted, total, f.stuck);
    DistinctParts(sorted, gone, kept);
    forall x <- kept, y <- gone ensures x.path != y.path {
      assert x in sorted && y in sorted;
    }
  }

  /** After the quota pass the visible session files fit in the quota exactly when those that cannot be deleted do. */
  lemma CleanedExactlyWhen(sorted: seq<Item>, files: map<Path, Info>, f: Faults)
    requires ListsVisible(sorted, files, f)
    ensures var left := Kept(sorted, Sum(sorted), f.stuck);
            && ListsVisible(left, files - Paths(Sweep(sorted, Sum(sorted), f.stuck)), f)
            && (Sum(left) <= MAX_PER_PORT2_BYTES <==> Sum(Stuck(sorted, f.stuck)) <= MAX_PER_PORT2_BYTES)
  {
    hide Sweep, Kept, Stuck, ListsVisible;
    KeptRemain(sorted, Sum(sorted), files, f);
    WithinQuotaExactlyWhen(sorted, f.stuck, 0);
  }
}
