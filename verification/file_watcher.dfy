/**
 * The change detector and the polling pass of file_watcher.py.
 *
 * `FolderMtime` is `get_folder_mtime_recursive`: a running maximum over the
 * tuples `os.walk` yields. `FreshestData` is the loop of
 * `check_folder_updates` over a task folder's subfolders that picks the freshest
 * `Data` directory. `CheckFolderUpdates` is one pass over the store. Each
 * method is proved equal to a specification function (`Detect`, `Freshest`,
 * `Pass`), and the lemmas at the end state what the pass guarantees.
 * Times are seconds as `real`; a notification is an event appended to the
 * pass's log, right after the commit of the new stored time.
 */
module FileWatcher {
  import opened Wrappers
  import opened FileTree
  import opened Store

  // ---------------------------------------------------------------------------
  // The walk

  /** One tuple `(root, dirs, files)` of `os.walk`, reduced to what `getmtime` returns for `root` and for each file. */
  datatype WalkStep = WalkStep(dirMtime: Option<real>, fileMtimes: seq<Option<real>>)

  /** The mtimes of the entries that are not directories, in listing order. */
  function FileTimes(entries: seq<Node>): seq<Option<real>> {
    if entries == [] then []
    else if entries[0].File? then [entries[0].mtime] + FileTimes(entries[1..])
    else FileTimes(entries[1..])
  }

  /** `os.walk(top)`, top-down: nothing for a file or a directory that cannot be listed. */
  function Walk(n: Node): seq<WalkStep> {
    match n
    case File(_, _) => []
    case Dir(_, mtime, listable, entries) =>
      if !listable then [] else [WalkStep(mtime, FileTimes(entries))] + WalkFrom(n, 0)
  }

  /** The walks of the entries of `n` from the i-th on. */
  function WalkFrom(n: Node, i: nat): seq<WalkStep>
    requires n.Dir?
    decreases n, |n.entries| - i
  {
    if i >= |n.entries| then [] else Walk(n.entries[i]) + WalkFrom(n, i + 1)
  }

  /** The present values, in order. */
  function Somes(xs: seq<Option<real>>): seq<real> {
    if xs == [] then []
    else
      var last := xs[|xs| - 1];
      Somes(xs[..|xs| - 1]) + (if last.Some? then [last.value] else [])
  }

  /** The mtimes one step of the walk reads successfully: the directory's, then its files'. */
  function StepReadings(s: WalkStep): seq<real> {
    Somes([s.dirMtime]) + Somes(s.fileMtimes)
  }

  function Readings(steps: seq<WalkStep>): seq<real> {
    if steps == [] then []
    else Readings(steps[..|steps| - 1]) + StepReadings(steps[|steps| - 1])
  }

  /** The running maximum `latest` of the source, starting from 0: a reading counts only when strictly larger. */
  function Max0(xs: seq<real>): real {
    if xs == [] then 0.0
    else
      var m := Max0(xs[..|xs| - 1]);
      if xs[|xs| - 1] > m then xs[|xs| - 1] else m
  }

  /** What `get_folder_mtime_recursive` returns for the entry at the path (None: the path does not exist). */
  function Detect(target: Option<Node>): real {
    match target
    case None => 0.0
    case Some(n) => Max0(Readings(Walk(n)))
  }

  /**
   * `x` is the readable mtime of a directory the walk reaches or of a file in
   * one: the tree-shaped description of what the detector looks at.
   */
  ghost predicate Stamped(n: Node, x: real)
    decreases n
  {
    n.Dir? && n.listable &&
    (n.mtime == Some(x) ||
     exists i :: 0 <= i < |n.entries| &&
       ((n.entries[i].File? && n.entries[i].mtime == Some(x)) || Stamped(n.entries[i], x)))
  }

  // ---------------------------------------------------------------------------
  // The detector

  /** `get_folder_mtime_recursive`: the loop over the walk, keeping the latest mtime seen. */
  method FolderMtime(target: Option<Node>) returns (latest: real)
    ensures latest == Detect(target)
    ensures target.None? ==> latest == 0.0
    ensures latest >= 0.0
    ensures target.Some? ==> forall x :: Stamped(target.value, x) ==> x <= latest
    ensures target.Some? && latest != 0.0 ==> Stamped(target.value, latest)
  {
    if target.None? {
      return 0.0;
    }
    var steps := Walk(target.value);
    latest := 0.0;
    var i := 0;
    while i < |steps|
      invariant 0 <= i <= |steps|
      invariant latest == Max0(Readings(steps[..i]))
    {
      var step := steps[i];
      ghost var done := Readings(steps[..i]);
      var d := step.dirMtime;
      Max0Snoc(done, d);
      if d.Some? && d.value > latest {
        latest := d.value;
      }
      ghost var pre := done + Somes([d]);
      var j := 0;
      assert step.fileMtimes[..0] == [];
      assert pre + Somes(step.fileMtimes[..0]) == pre;
      while j < |step.fileMtimes|
        invariant 0 <= j <= |step.fileMtimes|
        invariant latest == Max0(pre + Somes(step.fileMtimes[..j]))
      {
        var m := step.fileMtimes[j];
        FileStep(pre, step.fileMtimes, j);
        if m.Some? && m.value > latest {
          latest := m.value;
        }
        j := j + 1;
      }
      StepDone(steps, i);
      i := i + 1;
    }
    assert steps[..i] == steps;
    DetectIsLatest(target);
  }

  // ---------------------------------------------------------------------------
  // The freshest Data folder of a task

  /** The immediate subdirectories of a task folder (the `os.path.isdir` filter), in listing order. */
  function Subfolders(entries: seq<Node>): (r: seq<Node>)
    ensures forall e :: e in r <==> e in entries && e.Dir?
  {
    if entries == [] then []
    else
      assert forall e :: e in entries <==> e == entries[0] || e in entries[1..];
      if entries[0].Dir? then [entries[0]] + Subfolders(entries[1..]) else Subfolders(entries[1..])
  }

  lemma DropFirstOfAppend(a: seq<Node>, b: seq<Node>)
    requires a != []
    ensures (a + b)[0] == a[0] && (a + b)[1..] == a[1..] + b
  {
  }

  /** The filter keeps listing order across a concatenation. */
  lemma {:induction false} SubfoldersAppend(a: seq<Node>, b: seq<Node>)
    ensures Subfolders(a + b) == Subfolders(a) + Subfolders(b)
    decreases |a|
  {
    if a != [] {
      DropFirstOfAppend(a, b);
      SubfoldersAppend(a[1..], b);
    } else {
      assert a + b == b;
    }
  }

  /** `<subfolder>/Data` when it exists and is a directory. */
  function DataDir(subfolder: Node): Option<Node> {
    if !subfolder.Dir? || !subfolder.listable then None
    else match ChildNamed(subfolder.entries, "Data")
      case Some(d) => if d.Dir? then Some(d) else None
      case None => None
  }

  /** The detector's value for a subfolder's Data directory, None when it has none. */
  function DataTime(subfolder: Node): Option<real> {
    match DataDir(subfolder)
    case None => None
    case Some(d) => Some(Detect(Some(d)))
  }

  /**
   * `latest_mtime_ts` and the subfolder name behind `changed_data_folder`
   * after the loop over `subfolders`: only a strictly larger time moves them.
   */
  function Freshest(subfolders: seq<Node>): (r: (real, Option<string>))
    ensures r.0 >= 0.0
    ensures r.0 > 0.0 <==> r.1.Some?
  {
    if subfolders == [] then (0.0, None)
    else
      var prev := Freshest(subfolders[..|subfolders| - 1]);
      var last := subfolders[|subfolders| - 1];
      var t := DataTime(last);
      if t.Some? && t.value > prev.0 then (t.value, Some(last.name)) else prev
  }

  /** The loop of `check_folder_updates` over the subfolders of one task. */
  method FreshestData(subfolders: seq<Node>) returns (latest: real, changed: Option<string>)
    ensures (latest, changed) == Freshest(subfolders)
    ensures forall k :: 0 <= k < |subfolders| && DataTime(subfolders[k]).Some? ==> DataTime(subfolders[k]).value <= latest
    ensures latest > 0.0 ==> exists k :: 0 <= k < |subfolders| && DataTime(subfolders[k]) == Some(latest)
                                          && changed == Some(subfolders[k].name)
  {
    latest, changed := 0.0, None;
    var i := 0;
    while i < |subfolders|
      invariant 0 <= i <= |subfolders|
      invariant (latest, changed) == Freshest(subfolders[..i])
    {
      var sub := subfolders[i];
      var data := DataDir(sub);
      if data.Some? {
        var t := FolderMtime(data);
        if t > latest {
          latest, changed := t, Some(sub.name);
        }
      }
      assert subfolders[..i + 1][..i] == subfolders[..i];
      i := i + 1;
    }
    assert subfolders[..i] == subfolders;
    FreshestIsFirstMax(subfolders);
  }

  // ---------------------------------------------------------------------------
  // One subscription

  /** Python's `int()` on a float: truncation toward zero. */
  function Trunc(x: real): int {
    if x >= 0.0 then x.Floor else -((-x).Floor)
  }

  /** What the pass finds at a subscription's task folder. */
  datatype Scan =
    | Missing                                          // `os.path.exists` is false
    | ListingFails                                     // `os.listdir` raises
    | Scanned(latest: real, changed: Option<string>)   // the freshest Data folder

  /**
   * `get_full_path` joins FILES_ROOT and a subscription's relative folder
   * path: resolving that full path from the top of the disk reaches the
   * same entry as resolving the folder path below the FILES_ROOT directory.
   * This is why the scan below starts from `fs`, the FILES_ROOT node.
   */
  lemma FullPathResolves(disk: Node, root: string, fs: Node, folderPath: string)
    requires Resolve(disk, Components(root)) == Some(fs)
    requires !(|folderPath| > 0 && folderPath[0] == '/')
    ensures Resolve(disk, Components(PathJoin(root, folderPath))) == Resolve(fs, Components(folderPath))
  {
    ComponentsOfJoin(root, folderPath);
    ResolveAppend(disk, Components(root), Components(folderPath));
  }

  /** What the pass finds at a subscription's task folder (`fs` is the FILES_ROOT directory, see FullPathResolves). */
  function ScanTask(fs: Node, folderPath: string): Scan {
    match Resolve(fs, Components(folderPath))
    case None => Missing
    case Some(task) =>
      if task.Dir? && task.listable then
        var r := Freshest(Subfolders(task.entries));
        Scanned(r.0, r.1)
      else ListingFails
  }

  /** What the pass does with one subscription. */
  datatype Decision =
    | Skip                                   // nothing stored, nothing sent
    | Initialise(time: real)                 // first sighting: store, do not notify
    | Advance(time: real, dataFolder: string)  // newer by a whole second: store, then notify
    | Abort                                  // an exception ends the pass

  function Decide(fs: Node, sub: Subscription): (d: Decision)
    ensures d.Initialise? ==> sub.lastModified.None? && d.time > 0.0
    ensures d.Advance? ==> sub.lastModified.Some? && Trunc(d.time) > Trunc(sub.lastModified.value) && d.time > 0.0
  {
    match ScanTask(fs, sub.folderPath)
    case Missing => Skip
    case ListingFails => Abort
    case Scanned(latest, changed) =>
      if latest == 0.0 then Skip
      else if sub.lastModified.None? then Initialise(latest)
      else if Trunc(latest) > Trunc(sub.lastModified.value) then Advance(latest, changed.value)
      else Skip
  }

  /**
   * The decision follows from the scan of the task folder in each case: a
   * missing folder or a zero Data time leaves the row alone, a failing
   * listing aborts, a first sighting stores the detected time, and a time at
   * least a whole second newer than the stored one is stored and announced
   * with the freshest Data folder's name.
   */
  lemma DecideFollowsScan(fs: Node, sub: Subscription)
    ensures ScanTask(fs, sub.folderPath).Missing? ==> Decide(fs, sub) == Skip
    ensures ScanTask(fs, sub.folderPath).ListingFails? ==> Decide(fs, sub) == Abort
    ensures ScanTask(fs, sub.folderPath).Scanned? ==>
      var t := ScanTask(fs, sub.folderPath).latest;
      var c := ScanTask(fs, sub.folderPath).changed;
      (t == 0.0 ==> Decide(fs, sub) == Skip) &&
      (t != 0.0 && sub.lastModified.None? ==> Decide(fs, sub) == Initialise(t)) &&
      (t != 0.0 && sub.lastModified.Some? && Trunc(t) > Trunc(sub.lastModified.value) ==>
         c.Some? && Decide(fs, sub) == Advance(t, c.value)) &&
      (t != 0.0 && sub.lastModified.Some? && Trunc(t) <= Trunc(sub.lastModified.value) ==> Decide(fs, sub) == Skip)
  {
  }

  /** What the pass writes to the store and sends, in order. */
  datatype Event =
    | Committed(userId: nat, folderPath: string, time: real)
    | Notified(userId: nat, folderPath: string, dataFolder: string, time: real)

  function Apply(sub: Subscription, d: Decision): Subscription {
    match d
    case Initialise(t) => sub.(lastModified := Some(t))
    case Advance(t, _) => sub.(lastModified := Some(t))
    case _ => sub
  }

  function EventsOf(sub: Subscription, d: Decision): seq<Event> {
    match d
    case Initialise(t) => [Committed(sub.userId, sub.folderPath, t)]
    case Advance(t, folder) => [Committed(sub.userId, sub.folderPath, t), Notified(sub.userId, sub.folderPath, folder, t)]
    case _ => []
  }

  // ---------------------------------------------------------------------------
  // The pass

  datatype PassResult = PassResult(subs: seq<Subscription>, events: seq<Event>, aborted: bool)

  /** Keys (user, folder path) agree row by row. */
  predicate SameKeys(a: seq<Subscription>, b: seq<Subscription>) {
    |a| == |b| && forall i :: 0 <= i < |a| ==> a[i].userId == b[i].userId && a[i].folderPath == b[i].folderPath
  }

  /** One pass of `check_folder_updates` over the rows in store order; an abort leaves the remaining rows as they were. */
  function Pass(fs: Node, subs: seq<Subscription>): (r: PassResult)
    ensures |r.subs| == |subs|
  {
    if subs == [] then PassResult([], [], false)
    else
      var p := Pass(fs, subs[..|subs| - 1]);
      var last := subs[|subs| - 1];
      if p.aborted then PassResult(p.subs + [last], p.events, true)
      else
        var d := Decide(fs, last);
        if d.Abort? then PassResult(p.subs + [last], p.events, true)
        else PassResult(p.subs + [Apply(last, d)], p.events + EventsOf(last, d), false)
  }

  /** The checks of the loop body for one row, up to the point where it stores or moves on. */
  method Examine(fs: Node, sub: Subscription) returns (d: Decision)
    ensures d == Decide(fs, sub)
  {
    var task := Resolve(fs, Components(sub.folderPath));
    if task.None? {
      // the folder is missing: skip it
      return Skip;
    }
    if !(task.value.Dir? && task.value.listable) {
      // `os.listdir` raises
      return Abort;
    }
    var latest, changed := FreshestData(Subfolders(task.value.entries));
    assert ScanTask(fs, sub.folderPath) == Scanned(latest, changed);
    if latest == 0.0 {
      // no Data folder with a readable time
      d := Skip;
    } else if sub.lastModified.None? {
      d := Initialise(latest);
    } else if Trunc(latest) > Trunc(sub.lastModified.value) {
      d := Advance(latest, changed.value);
    } else {
      d := Skip;
    }
  }

  /**
   * The users table after the writes in `events`: each notification is
   * preceded by the refresh of its subscriber's row (notify_subscribers),
   * in log order.
   */
  function RefreshedBy(users: seq<User>, events: seq<Event>, chats: map<int, Chat>): seq<User> {
    if events == [] then users
    else
      var r := RefreshedBy(users, events[..|events| - 1], chats);
      var e := events[|events| - 1];
      if e.Notified? then Refreshed(r, e.userId, chats) else r
  }

  /** The body of the loop of `check_folder_updates` for the i-th row: decide, commit, then notify. */
  method CheckSubscription(db: Database, fs: Node, chats: map<int, Chat>, i: nat) returns (events: seq<Event>, abort: bool)
    requires db.Valid() && i < |db.subs|
    modifies db
    ensures db.Valid() && db.users == RefreshedBy(old(db.users), events, chats) && db.nextId == old(db.nextId)
    ensures var d := Decide(fs, old(db.subs)[i]);
      && abort == d.Abort?
      && events == EventsOf(old(db.subs)[i], d)
      && db.subs == old(db.subs)[i := Apply(old(db.subs)[i], d)]
  {
    var sub := db.subs[i];
    var d := Examine(fs, sub);
    RefreshedByDecision(db.users, sub, d, chats);
    events, abort := [], false;
    match d
    case Skip =>
    case Abort =>
      abort := true;
    case Initialise(t) =>
      db.SetLastModified(i, t);
      events := events + [Committed(sub.userId, sub.folderPath, t)];
    case Advance(t, dataFolder) =>
      db.SetLastModified(i, t);
      events := events + [Committed(sub.userId, sub.folderPath, t)];
      db.RefreshUser(sub.userId, chats);
      events := events + [Notified(sub.userId, sub.folderPath, dataFolder, t)];
  }

  /** `check_folder_updates`: one pass over the store's rows, updating them in place; an exception ends the pass. */
  method CheckFolderUpdates(db: Database, fs: Node, chats: map<int, Chat>) returns (events: seq<Event>, aborted: bool)
    requires db.Valid()
    modifies db
    ensures db.Valid() && db.users == RefreshedBy(old(db.users), events, chats) && db.nextId == old(db.nextId)
    ensures Pass(fs, old(db.subs)) == PassResult(db.subs, events, aborted)
  {
    var rows := db.subs;
    ghost var users := db.users;
    events, aborted := [], false;
    var i := 0;
    while i < |rows| && !aborted
      invariant 0 <= i <= |rows| && |db.subs| == |rows|
      invariant db.Valid() && db.users == RefreshedBy(users, events, chats) && db.nextId == old(db.nextId)
      invariant rows == old(db.subs)
      invariant db.subs[i..] == rows[i..]
      invariant Pass(fs, rows[..i]) == PassResult(db.subs[..i], events, aborted)
    {
      ghost var before := db.subs;
      ghost var refreshed := db.users;
      assert before[i] == rows[i];
      var more, abort := CheckSubscription(db, fs, chats, i);
      PassLoopStep(fs, rows, i, before, db.subs, events, more);
      assert db.users == RefreshedBy(refreshed, more, chats);
      RefreshedByAppend(users, events, more, chats);
      events, aborted := events + more, abort;
      i := i + 1;
    }
    PassFinish(fs, rows, i, db.subs, events, aborted);
  }

  /** When the loop of `CheckFolderUpdates` stops, by exhaustion or by an abort, the whole pass is done. */
  lemma PassFinish(fs: Node, rows: seq<Subscription>, i: nat, subs: seq<Subscription>, events: seq<Event>, aborted: bool)
    requires i <= |rows| && |subs| == |rows| && subs[i..] == rows[i..]
    requires Pass(fs, rows[..i]) == PassResult(subs[..i], events, aborted)
    requires aborted || i == |rows|
    ensures Pass(fs, rows) == PassResult(subs, events, aborted)
  {
    if aborted {
      PassStopsAtAbort(fs, rows, i);
      assert subs == subs[..i] + rows[i..];
    } else {
      assert rows[..i] == rows && subs[..i] == subs;
    }
  }

  /** One iteration of the loop of `CheckFolderUpdates` extends the pass by one row. */
  lemma PassLoopStep(fs: Node, rows: seq<Subscription>, i: nat, before: seq<Subscription>, after: seq<Subscription>,
                     events: seq<Event>, more: seq<Event>)
    requires i < |rows| && |before| == |rows|
    requires Pass(fs, rows[..i]) == PassResult(before[..i], events, false)
    requires before[i..] == rows[i..]
    requires more == EventsOf(rows[i], Decide(fs, rows[i]))
    requires after == before[i := Apply(rows[i], Decide(fs, rows[i]))]
    ensures Pass(fs, rows[..i + 1]) == PassResult(after[..i + 1], events + more, Decide(fs, rows[i]).Abort?)
    ensures after[i + 1..] == rows[i + 1..]
  {
    var d := Decide(fs, rows[i]);
    PassSnoc(fs, rows[..i], rows[i]);
    assert rows[..i] + [rows[i]] == rows[..i + 1];
    assert after[..i + 1] == before[..i] + [Apply(rows[i], d)];
    if d.Abort? {
      assert more == [] && Apply(rows[i], d) == rows[i];
      assert events + more == events;
    }
    assert after[i + 1..] == before[i + 1..];
    assert before[i + 1..] == before[i..][1..];
  }

  /** Unfolds the pass by one row. */
  lemma PassSnoc(fs: Node, subs: seq<Subscription>, last: Subscription)
    ensures var p := Pass(fs, subs);
      var d := Decide(fs, last);
      Pass(fs, subs + [last]) ==
        if p.aborted || d.Abort? then PassResult(p.subs + [last], p.events, true)
        else PassResult(p.subs + [Apply(last, d)], p.events + EventsOf(last, d), false)
  {
    assert (subs + [last])[..|subs|] == subs;
  }

  // ---------------------------------------------------------------------------
  // Lemmas about the detector

  lemma Max0Snoc(xs: seq<real>, o: Option<real>)
    ensures Max0(xs + Somes([o])) == if o.Some? && o.value > Max0(xs) then o.value else Max0(xs)
    ensures Somes([o]) == if o.Some? then [o.value] else []
  {
    assert [o][..0] == [];
    if o.Some? {
      assert (xs + [o.value])[..|xs|] == xs;
    } else {
      assert xs + [] == xs;
    }
  }

  /** One more file of a walk step: the running maximum moves only on a strictly larger readable time. */
  lemma FileStep(pre: seq<real>, files: seq<Option<real>>, j: nat)
    requires j < |files|
    ensures Max0(pre + Somes(files[..j + 1])) ==
      if files[j].Some? && files[j].value > Max0(pre + Somes(files[..j])) then files[j].value
      else Max0(pre + Somes(files[..j]))
  {
    assert files[..j + 1] == files[..j] + [files[j]];
    SomesAppend(files[..j], [files[j]]);
    Max0Snoc(pre + Somes(files[..j]), files[j]);
    assert pre + Somes(files[..j + 1]) == (pre + Somes(files[..j])) + Somes([files[j]]);
  }

  lemma StepDone(steps: seq<WalkStep>, i: nat)
    requires i < |steps|
    ensures Readings(steps[..i + 1]) == Readings(steps[..i]) + Somes([steps[i].dirMtime]) + Somes(steps[i].fileMtimes[..|steps[i].fileMtimes|])
  {
    assert steps[..i + 1][..i] == steps[..i];
    assert steps[i].fileMtimes[..|steps[i].fileMtimes|] == steps[i].fileMtimes;
  }

  lemma {:induction false} SomesAppend(xs: seq<Option<real>>, ys: seq<Option<real>>)
    ensures Somes(xs + ys) == Somes(xs) + Somes(ys)
    decreases |ys|
  {
    if ys == [] {
      assert xs + ys == xs;
    } else {
      assert (xs + ys)[..|xs + ys| - 1] == xs + ys[..|ys| - 1];
      SomesAppend(xs, ys[..|ys| - 1]);
    }
  }

  lemma {:induction false} InSomes(xs: seq<Option<real>>, x: real)
    ensures x in Somes(xs) <==> Some(x) in xs
    decreases |xs|
  {
    if xs != [] {
      InSomes(xs[..|xs| - 1], x);
      assert xs == xs[..|xs| - 1] + [xs[|xs| - 1]];
    }
  }

  lemma {:induction false} ReadingsAppend(a: seq<WalkStep>, b: seq<WalkStep>)
    ensures Readings(a + b) == Readings(a) + Readings(b)
    decreases |b|
  {
    if b == [] {
      assert a + b == a;
    } else {
      var init, last := b[..|b| - 1], b[|b| - 1];
      assert (a + b)[..|a + b| - 1] == a + init;
      assert (a + b)[|a + b| - 1] == last;
      ReadingsAppend(a, init);
      assert Readings(a + b) == Readings(a + init) + StepReadings(last);
      assert Readings(b) == Readings(init) + StepReadings(last);
    }
  }

  lemma {:induction false} FileTimesHas(entries: seq<Node>, x: real)
    ensures Some(x) in FileTimes(entries) <==> exists i :: 0 <= i < |entries| && entries[i].File? && entries[i].mtime == Some(x)
  {
    if entries != [] {
      FileTimesHas(entries[1..], x);
      assert forall i :: 1 <= i < |entries| ==> entries[i] == entries[1..][i - 1];
    }
  }

  /** The walk reads exactly the stamps of the tree. */
  lemma {:induction false} WalkReadsStamps(n: Node, x: real)
    ensures x in Readings(Walk(n)) <==> Stamped(n, x)
    decreases n
  {
    if n.Dir? && n.listable {
      var step := WalkStep(n.mtime, FileTimes(n.entries));
      assert Readings([step]) == StepReadings(step) by {
        assert [step][..0] == [];
      }
      ReadingsAppend([step], WalkFrom(n, 0));
      InSomes([n.mtime], x);
      InSomes(FileTimes(n.entries), x);
      FileTimesHas(n.entries, x);
      WalkFromReadsStamps(n, 0, x);
    }
  }

  lemma {:induction false} WalkFromReadsStamps(n: Node, i: nat, x: real)
    requires n.Dir?
    ensures x in Readings(WalkFrom(n, i)) <==> exists k :: i <= k < |n.entries| && Stamped(n.entries[k], x)
    decreases n, |n.entries| - i
  {
    if i < |n.entries| {
      ReadingsAppend(Walk(n.entries[i]), WalkFrom(n, i + 1));
      WalkReadsStamps(n.entries[i], x);
      WalkFromReadsStamps(n, i + 1, x);
    }
  }

  lemma {:induction false} Max0Bounds(xs: seq<real>)
    ensures Max0(xs) >= 0.0
    ensures forall x :: x in xs ==> x <= Max0(xs)
    ensures Max0(xs) == 0.0 || Max0(xs) in xs
    decreases |xs|
  {
    if xs != [] {
      var init := xs[..|xs| - 1];
      Max0Bounds(init);
      assert xs == init + [xs[|xs| - 1]];
    }
  }

  /**
   * The detector returns 0 for a path that does not exist, and otherwise the
   * largest of 0 and every readable mtime in the walked subtree; unreadable
   * entries are skipped.
   */
  lemma DetectIsLatest(target: Option<Node>)
    ensures target.None? ==> Detect(target) == 0.0
    ensures Detect(target) >= 0.0
    ensures target.Some? ==> forall x :: Stamped(target.value, x) ==> x <= Detect(target)
    ensures target.Some? && Detect(target) != 0.0 ==> Stamped(target.value, Detect(target))
  {
    if target.Some? {
      var rs := Readings(Walk(target.value));
      Max0Bounds(rs);
      forall x | Stamped(target.value, x) ensures x <= Detect(target) {
        WalkReadsStamps(target.value, x);
      }
      if Detect(target) != 0.0 {
        WalkReadsStamps(target.value, Detect(target));
      }
    }
  }

  /** No subfolder's Data time exceeds `latest_mtime_ts`. */
  lemma {:induction false} FreshestBound(subfolders: seq<Node>)
    ensures forall k :: 0 <= k < |subfolders| && DataTime(subfolders[k]).Some? ==>
      DataTime(subfolders[k]).value <= Freshest(subfolders).0
    decreases |subfolders|
  {
    if subfolders != [] {
      var init := subfolders[..|subfolders| - 1];
      FreshestBound(init);
      assert forall k :: 0 <= k < |init| ==> subfolders[k] == init[k];
    }
  }

  /**
   * The freshest Data folder: no subfolder's Data time exceeds `latest`, and a
   * positive `latest` comes from the FIRST subfolder in listing order that
   * attains it (later ties do not move it, the comparison being strict).
   */
  lemma {:induction false} FreshestIsFirstMax(subfolders: seq<Node>)
    ensures var r := Freshest(subfolders);
      && (forall k :: 0 <= k < |subfolders| && DataTime(subfolders[k]).Some? ==> DataTime(subfolders[k]).value <= r.0)
      && (r.0 > 0.0 ==> exists k :: 0 <= k < |subfolders| && DataTime(subfolders[k]) == Some(r.0)
                                    && r.1 == Some(subfolders[k].name)
                                    && forall j :: 0 <= j < k && DataTime(subfolders[j]).Some? ==> DataTime(subfolders[j]).value < r.0)
    decreases |subfolders|
  {
    FreshestBound(subfolders);
    if Freshest(subfolders).0 > 0.0 {
      var k := FreshestWitness(subfolders);
    }
  }

  /** The index of the subfolder `changed_data_folder` names: the first to attain the positive maximum. */
  lemma {:induction false} FreshestWitness(subfolders: seq<Node>) returns (k: nat)
    requires Freshest(subfolders).0 > 0.0
    ensures var r := Freshest(subfolders);
      && k < |subfolders| && DataTime(subfolders[k]) == Some(r.0) && r.1 == Some(subfolders[k].name)
      && forall j :: 0 <= j < k && DataTime(subfolders[j]).Some? ==> DataTime(subfolders[j]).value < r.0
    decreases |subfolders|
  {
    var init := subfolders[..|subfolders| - 1];
    if Freshest(subfolders) != Freshest(init) {
      FreshestMovedLast(subfolders);
      k := |subfolders| - 1;
    } else {
      k := FreshestWitness(init);
      assert subfolders[k] == init[k];
      FirstMaxExtends(subfolders, |init|, k, Freshest(init).0);
    }
  }

  /** When the last subfolder moves the maximum, it is the first to attain it. */
  lemma FreshestMovedLast(subfolders: seq<Node>)
    requires subfolders != [] && Freshest(subfolders) != Freshest(subfolders[..|subfolders| - 1])
    ensures var r := Freshest(subfolders);
      var k := |subfolders| - 1;
      && DataTime(subfolders[k]) == Some(r.0) && r.1 == Some(subfolders[k].name)
      && forall j :: 0 <= j < k && DataTime(subfolders[j]).Some? ==> DataTime(subfolders[j]).value < r.0
  {
    var init := subfolders[..|subfolders| - 1];
    FreshestBound(init);
    forall j | 0 <= j < |init| && DataTime(subfolders[j]).Some? ensures DataTime(subfolders[j]).value < Freshest(subfolders).0 {
      assert subfolders[j] == init[j];
    }
  }

  /** A witness among the first subfolders is a witness among all of them. */
  lemma FirstMaxExtends(subfolders: seq<Node>, n: nat, k: nat, t: real)
    requires k < n <= |subfolders| && DataTime(subfolders[k]) == Some(t)
    requires forall j :: 0 <= j < k && DataTime(subfolders[..n][j]).Some? ==> DataTime(subfolders[..n][j]).value < t
    ensures forall j :: 0 <= j < k && DataTime(subfolders[j]).Some? ==> DataTime(subfolders[j]).value < t
  {
    forall j | 0 <= j < k && DataTime(subfolders[j]).Some? ensures DataTime(subfolders[j]).value < t {
      assert subfolders[..n][j] == subfolders[j];
    }
  }

  // ---------------------------------------------------------------------------
  // Lemmas about the pass

  /** A pass keeps every row's (user, folder path) in its place. */
  lemma {:induction false} PassKeepsKeys(fs: Node, subs: seq<Subscription>)
    ensures SameKeys(subs, Pass(fs, subs).subs)
    decreases |subs|
  {
    if subs != [] {
      var init, last := subs[..|subs| - 1], subs[|subs| - 1];
      PassKeepsKeys(fs, init);
      PassSnoc(fs, init, last);
      assert init + [last] == subs;
      var p := Pass(fs, init);
      var rows := Pass(fs, subs).subs;
      assert rows[..|init|] == p.subs;
      assert rows[|init|].userId == last.userId && rows[|init|].folderPath == last.folderPath;
      forall i | 0 <= i < |subs| ensures rows[i].userId == subs[i].userId && rows[i].folderPath == subs[i].folderPath {
        if i < |init| {
          assert rows[i] == p.subs[i] && subs[i] == init[i];
        }
      }
    }
  }

  /** Once a row is aborted on, the rest of the rows go through untouched and nothing more is logged. */
  lemma PassStopsAtAbort(fs: Node, subs: seq<Subscription>, i: nat)
    requires i <= |subs| && Pass(fs, subs[..i]).aborted
    ensures Pass(fs, subs) == PassResult(Pass(fs, subs[..i]).subs + subs[i..], Pass(fs, subs[..i]).events, true)
  {
    AbortedCarriesOver(fs, subs[..i], subs[i..]);
    assert subs[..i] + subs[i..] == subs;
  }

  /** The rows after an abort are carried over as they are. */
  lemma {:induction false} AbortedCarriesOver(fs: Node, pre: seq<Subscription>, post: seq<Subscription>)
    requires Pass(fs, pre).aborted
    ensures Pass(fs, pre + post) == PassResult(Pass(fs, pre).subs + post, Pass(fs, pre).events, true)
    decreases |post|
  {
    var p := Pass(fs, pre);
    if post == [] {
      assert pre + post == pre && p.subs + post == p.subs;
    } else {
      var init, last := post[..|post| - 1], post[|post| - 1];
      AbortedCarriesOver(fs, pre, init);
      PassAbortedSnoc(fs, pre + init, last);
      calc {
        Pass(fs, pre + post);
        { assert pre + post == (pre + init) + [last]; }
        Pass(fs, (pre + init) + [last]);
        PassResult(Pass(fs, pre + init).subs + [last], Pass(fs, pre + init).events, true);
        PassResult((p.subs + init) + [last], p.events, true);
        { assert (p.subs + init) + [last] == p.subs + post; }
        PassResult(p.subs + post, p.events, true);
      }
    }
  }

  /** After an abort, one more row is carried over as it is. */
  lemma PassAbortedSnoc(fs: Node, subs: seq<Subscription>, last: Subscription)
    requires Pass(fs, subs).aborted
    ensures Pass(fs, subs + [last]) == PassResult(Pass(fs, subs).subs + [last], Pass(fs, subs).events, true)
  {
    PassSnoc(fs, subs, last);
  }

  /** How a row may change in one pass: not at all, or to a positive time that is a first one or a whole second newer. */
  predicate RowStep(before: Subscription, after: Subscription) {
    after == before ||
    (&& after.lastModified.Some?
     && after == before.(lastModified := after.lastModified)
     && after.lastModified.value > 0.0
     && (before.lastModified.None? || Trunc(after.lastModified.value) > Trunc(before.lastModified.value)))
  }

  /** The key (user, folder path) an event is about. */
  function EventKey(e: Event): (nat, string) {
    (e.userId, e.folderPath)
  }

  /** How many notifications `events` sends for the subscription (user, folder path). */
  function CountNotified(events: seq<Event>, userId: nat, path: string): nat {
    if events == [] then 0
    else CountNotified(events[..|events| - 1], userId, path)
         + (if events[|events| - 1].Notified? && EventKey(events[|events| - 1]) == (userId, path) then 1 else 0)
  }

  /** The row went from a stored time to one at least a whole second newer. */
  predicate Advanced(before: Subscription, after: Subscription) {
    before.lastModified.Some? && after.lastModified.Some? &&
    Trunc(after.lastModified.value) > Trunc(before.lastModified.value)
  }

  /**
   * Monotonicity: a pass changes a row only by storing a positive time, and
   * an initialised row only by one whose whole-second value is strictly
   * larger; so an initialised row stays initialised and never goes back.
   */
  lemma {:induction false} PassNeverRewinds(fs: Node, subs: seq<Subscription>)
    ensures forall i :: 0 <= i < |subs| ==> RowStep(subs[i], Pass(fs, subs).subs[i])
    decreases |subs|
  {
    if subs != [] {
      var init := subs[..|subs| - 1];
      PassNeverRewinds(fs, init);
      var p := Pass(fs, init);
      var r := Pass(fs, subs);
      forall i | 0 <= i < |subs| ensures RowStep(subs[i], r.subs[i]) {
        if i < |init| {
          assert subs[i] == init[i] && r.subs[i] == p.subs[i];
        }
      }
    }
  }

  /** Notify only after update: every notification directly follows the commit of the same subscription's new time. */
  lemma {:induction false} NotifyFollowsCommit(fs: Node, subs: seq<Subscription>)
    ensures var ev := Pass(fs, subs).events;
      forall k :: 0 <= k < |ev| && ev[k].Notified? ==>
        k > 0 && ev[k - 1] == Committed(ev[k].userId, ev[k].folderPath, ev[k].time)
    decreases |subs|
  {
    if subs != [] {
      var init := subs[..|subs| - 1];
      var last := subs[|subs| - 1];
      NotifyFollowsCommit(fs, init);
      var p := Pass(fs, init);
      PassSnoc(fs, init, last);
      assert init + [last] == subs;
      var more := if p.aborted then [] else EventsOf(last, Decide(fs, last));
      var ev := Pass(fs, subs).events;
      assert ev == p.events + more;
      forall k | 0 <= k < |ev| && ev[k].Notified?
        ensures k > 0 && ev[k - 1] == Committed(ev[k].userId, ev[k].folderPath, ev[k].time)
      {
        if k < |p.events| {
          assert ev[k] == p.events[k] && ev[k - 1] == p.events[k - 1];
        } else {
          assert k == |p.events| + 1 && ev[k] == more[1] && ev[k - 1] == more[0];
        }
      }
    }
  }

  /** A pass only ever commits or notifies for rows of the store it was given. */
  lemma {:induction false} EventsOnlyForRows(fs: Node, subs: seq<Subscription>)
    ensures forall e :: e in Pass(fs, subs).events ==> HasKey(subs, e.userId, e.folderPath)
    decreases |subs|
  {
    if subs != [] {
      var init := subs[..|subs| - 1];
      EventsOnlyForRows(fs, init);
      var last := subs[|subs| - 1];
      forall e | e in Pass(fs, subs).events ensures HasKey(subs, e.userId, e.folderPath) {
        if e in Pass(fs, init).events {
          var i :| 0 <= i < |init| && init[i].userId == e.userId && init[i].folderPath == e.folderPath;
          assert subs[i] == init[i];
        } else {
          assert e.userId == last.userId && e.folderPath == last.folderPath;
        }
      }
    }
  }

  /** Deleting a subscription removes it from the next pass: nothing is committed or sent for it. */
  lemma DeletedNotScanned(fs: Node, subs: seq<Subscription>, userId: nat, path: string)
    requires UniqueKeys(subs)
    ensures forall e :: e in Pass(fs, RemoveKey(subs, userId, path)).events ==> EventKey(e) != (userId, path)
  {
    RemoveKeyUnique(subs, userId, path);
    EventsOnlyForRows(fs, RemoveKey(subs, userId, path));
  }

  /** A decision, once applied, leaves nothing for the same filesystem to decide. */
  lemma DecideSettles(fs: Node, sub: Subscription)
    requires !Decide(fs, sub).Abort?
    ensures Decide(fs, Apply(sub, Decide(fs, sub))) == Skip
  {
    assert Apply(sub, Decide(fs, sub)).folderPath == sub.folderPath;
  }

  /**
   * Two passes over an unchanged filesystem: the second stores nothing and
   * sends nothing (it stops at the same row if the first one did).
   */
  lemma {:induction false} SecondPassQuiet(fs: Node, subs: seq<Subscription>)
    ensures var p := Pass(fs, subs);
      Pass(fs, p.subs) == PassResult(p.subs, [], p.aborted)
    decreases |subs|
  {
    if subs != [] {
      var init := subs[..|subs| - 1];
      var last := subs[|subs| - 1];
      SecondPassQuiet(fs, init);
      var p1 := Pass(fs, init);
      var p := Pass(fs, subs);
      var x := p.subs[|subs| - 1];
      assert p.subs == p1.subs + [x];
      PassSnoc(fs, p1.subs, x);
      if !p1.aborted {
        var d := Decide(fs, last);
        if !d.Abort? {
          DecideSettles(fs, last);
        }
      }
    }
  }

  lemma CountAppend(a: seq<Event>, b: seq<Event>, userId: nat, path: string)
    ensures CountNotified(a + b, userId, path) == CountNotified(a, userId, path) + CountNotified(b, userId, path)
    decreases |b|
  {
    if b == [] {
      assert a + b == a;
    } else {
      assert (a + b)[..|a + b| - 1] == a + b[..|b| - 1];
      CountAppend(a, b[..|b| - 1], userId, path);
    }
  }

  lemma {:induction false} CountAbsent(events: seq<Event>, userId: nat, path: string)
    requires forall e :: e in events ==> EventKey(e) != (userId, path)
    ensures CountNotified(events, userId, path) == 0
    decreases |events|
  {
    if events != [] {
      CountAbsent(events[..|events| - 1], userId, path);
    }
  }

  lemma UniquePrefix(subs: seq<Subscription>, n: nat)
    requires UniqueKeys(subs) && n <= |subs|
    ensures UniqueKeys(subs[..n])
  {
    forall i, j | 0 <= i < j < n
      ensures (subs[..n][i].userId, subs[..n][i].folderPath) != (subs[..n][j].userId, subs[..n][j].folderPath)
    {
      assert subs[..n][i] == subs[i] && subs[..n][j] == subs[j];
    }
  }

  /** The notifications of one row's decision, counted for any key. */
  lemma CountEventsOf(sub: Subscription, d: Decision, userId: nat, path: string)
    ensures CountNotified(EventsOf(sub, d), userId, path)
      == if d.Advance? && (userId, path) == (sub.userId, sub.folderPath) then 1 else 0
  {
    var ev := EventsOf(sub, d);
    if d.Advance? {
      var c := Committed(sub.userId, sub.folderPath, d.time);
      assert ev == [c, Notified(sub.userId, sub.folderPath, d.dataFolder, d.time)];
      assert ev[..|ev| - 1] == [c];
      assert [c][..0] == [];
      assert CountNotified([c], userId, path) == 0;
    } else if d.Initialise? {
      assert ev[..|ev| - 1] == [];
    }
  }

  /** The events a pass adds for its last row are about that row only. */
  lemma CountOtherRow(fs: Node, init: seq<Subscription>, last: Subscription, userId: nat, path: string)
    requires (userId, path) != (last.userId, last.folderPath)
    ensures CountNotified(Pass(fs, init + [last]).events, userId, path) == CountNotified(Pass(fs, init).events, userId, path)
  {
    var p := Pass(fs, init);
    var d := Decide(fs, last);
    PassSnoc(fs, init, last);
    if p.aborted || d.Abort? {
      assert Pass(fs, init + [last]).events == p.events + [];
      CountAppend(p.events, [], userId, path);
    } else {
      assert Pass(fs, init + [last]).events == p.events + EventsOf(last, d);
      CountAppend(p.events, EventsOf(last, d), userId, path);
      CountEventsOf(last, d, userId, path);
    }
  }

  /** The last row's own notifications: one exactly when its stored time advanced. */
  lemma CountLastRow(fs: Node, init: seq<Subscription>, last: Subscription)
    requires forall e :: e in Pass(fs, init).events ==> EventKey(e) != (last.userId, last.folderPath)
    ensures var r := Pass(fs, init + [last]);
      CountNotified(r.events, last.userId, last.folderPath) == if Advanced(last, r.subs[|init|]) then 1 else 0
  {
    var p := Pass(fs, init);
    var r := Pass(fs, init + [last]);
    var d := Decide(fs, last);
    PassSnoc(fs, init, last);
    CountAbsent(p.events, last.userId, last.folderPath);
    if p.aborted || d.Abort? {
      assert r.events == p.events + [] && r.subs[|init|] == last;
      CountAppend(p.events, [], last.userId, last.folderPath);
    } else {
      assert r.events == p.events + EventsOf(last, d) && r.subs[|init|] == Apply(last, d);
      CountAppend(p.events, EventsOf(last, d), last.userId, last.folderPath);
      CountEventsOf(last, d, last.userId, last.folderPath);
    }
  }

  /**
   * Exactly one notification per update: with unique keys, a pass sends one
   * notification for a subscription when it moves its stored time forward
   * by at least a whole second, and none otherwise (in particular none on
   * the first sighting, when nothing was stored).
   */
  lemma {:induction false} NotifiedOnceIffAdvanced(fs: Node, subs: seq<Subscription>)
    requires UniqueKeys(subs)
    ensures var r := Pass(fs, subs);
      forall i :: 0 <= i < |subs| ==>
        CountNotified(r.events, subs[i].userId, subs[i].folderPath) == if Advanced(subs[i], r.subs[i]) then 1 else 0
    decreases |subs|
  {
    if subs != [] {
      var n := |subs| - 1;
      var init := subs[..n];
      var last := subs[n];
      assert init + [last] == subs;
      UniquePrefix(subs, n);
      NotifiedOnceIffAdvanced(fs, init);
      EventsOnlyForRows(fs, init);
      var p := Pass(fs, init);
      var r := Pass(fs, subs);
      forall i | 0 <= i < |subs|
        ensures CountNotified(r.events, subs[i].userId, subs[i].folderPath) == if Advanced(subs[i], r.subs[i]) then 1 else 0
      {
        if i < n {
          assert subs[i] == init[i] && r.subs[i] == p.subs[i];
          CountOtherRow(fs, init, last, subs[i].userId, subs[i].folderPath);
        } else {
          assert forall e :: e in p.events ==> EventKey(e) != (last.userId, last.folderPath);
          CountLastRow(fs, init, last);
        }
      }
    }
  }

  /** Later rows never change the outcome for earlier ones. */
  lemma {:induction false} PassPrefix(fs: Node, subs: seq<Subscription>, n: nat)
    requires n <= |subs|
    ensures Pass(fs, subs).subs[..n] == Pass(fs, subs[..n]).subs
    ensures Pass(fs, subs[..n]).aborted ==> Pass(fs, subs).aborted
    decreases |subs|
  {
    if n == |subs| {
      assert subs[..n] == subs;
    } else {
      var init := subs[..|subs| - 1];
      var last := subs[|subs| - 1];
      assert init + [last] == subs;
      assert init[..n] == subs[..n];
      PassPrefix(fs, init, n);
      PassSnoc(fs, init, last);
    }
  }

  /** A row the pass reaches before any abort ends with its own decision applied. */
  lemma PassAppliesDecision(fs: Node, subs: seq<Subscription>, i: nat)
    requires i < |subs| && !Pass(fs, subs[..i]).aborted
    ensures Pass(fs, subs).subs[i] == Apply(subs[i], Decide(fs, subs[i]))
    ensures Decide(fs, subs[i]).Abort? <==> Pass(fs, subs[..i + 1]).aborted
  {
    PassPrefix(fs, subs, i + 1);
    assert subs[..i] + [subs[i]] == subs[..i + 1];
    PassSnoc(fs, subs[..i], subs[i]);
    assert Pass(fs, subs).subs[i] == Pass(fs, subs).subs[..i + 1][i];
  }

  /**
   * Changes are recorded: for a row the pass reaches before any abort, a
   * scan that finds a positive time stores it on the first sighting and when
   * it is a whole second newer than the stored one, and the latter sends
   * exactly one notification for that row; any other scan result leaves the
   * row as it was and sends nothing for it, and a failing listing ends the
   * pass.
   */
  lemma PassRecordsChanges(fs: Node, subs: seq<Subscription>, i: nat)
    requires UniqueKeys(subs) && i < |subs| && !Pass(fs, subs[..i]).aborted
    ensures var r := Pass(fs, subs);
      var sub := subs[i];
      var scan := ScanTask(fs, sub.folderPath);
      var count := CountNotified(r.events, sub.userId, sub.folderPath);
      if scan.Scanned? && scan.latest != 0.0 && sub.lastModified.None? then
        r.subs[i] == sub.(lastModified := Some(scan.latest)) && count == 0
      else if scan.Scanned? && scan.latest != 0.0 && Trunc(scan.latest) > Trunc(sub.lastModified.value) then
        r.subs[i] == sub.(lastModified := Some(scan.latest)) && count == 1
      else
        r.subs[i] == sub && count == 0 && (scan.ListingFails? ==> r.aborted)
  {
    var r := Pass(fs, subs);
    var sub := subs[i];
    DecideFollowsScan(fs, sub);
    PassAppliesDecision(fs, subs, i);
    NotifiedOnceIffAdvanced(fs, subs);
    assert CountNotified(r.events, sub.userId, sub.folderPath) == if Advanced(sub, r.subs[i]) then 1 else 0;
    if ScanTask(fs, sub.folderPath).ListingFails? {
      PassPrefix(fs, subs, i + 1);
    }
  }

  lemma {:induction false} RefreshedByAppend(users: seq<User>, a: seq<Event>, b: seq<Event>, chats: map<int, Chat>)
    ensures RefreshedBy(users, a + b, chats) == RefreshedBy(RefreshedBy(users, a, chats), b, chats)
    decreases |b|
  {
    if b == [] {
      assert a + b == a;
    } else {
      assert (a + b)[..|a + b| - 1] == a + b[..|b| - 1];
      RefreshedByAppend(users, a, b[..|b| - 1], chats);
    }
  }

  /**
   * A pass touches the users table only through the name refreshes: the
   * rows stay, with their ids, chat ids and last names, and a user who was
   * sent no notification keeps the row as it was.
   */
  lemma {:induction false} RefreshedByKeeps(users: seq<User>, events: seq<Event>, chats: map<int, Chat>)
    ensures var r := RefreshedBy(users, events, chats);
      && |r| == |users|
      && (forall i :: 0 <= i < |users| ==>
            r[i].id == users[i].id && r[i].tgId == users[i].tgId && r[i].lastName == users[i].lastName)
      && (forall i :: 0 <= i < |users| && (forall e :: e in events && e.Notified? ==> e.userId != users[i].id) ==>
            r[i] == users[i])
    decreases |events|
  {
    if events != [] {
      var init := events[..|events| - 1];
      RefreshedByKeeps(users, init, chats);
      assert forall e :: e in init ==> e in events;
    }
  }

  /** The users table after one row's events: refreshed for an advance, untouched otherwise. */
  lemma RefreshedByDecision(users: seq<User>, sub: Subscription, d: Decision, chats: map<int, Chat>)
    ensures RefreshedBy(users, EventsOf(sub, d), chats) == if d.Advance? then Refreshed(users, sub.userId, chats) else users
  {
    var events := EventsOf(sub, d);
    if d.Initialise? {
      assert events[..0] == [];
    } else if d.Advance? {
      var first := events[..1];
      assert first[..0] == [];
      assert RefreshedBy(users, first, chats) == users;
      assert events[1].Notified?;
    }
  }

  /**
   * A user who was sent a notification, and whose chat `get_chat` could
   * read, ends the pass with that chat's username and first name.
   */
  lemma {:induction false} RefreshedByNames(users: seq<User>, events: seq<Event>, chats: map<int, Chat>, i: nat)
    requires i < |users| && users[i].tgId in chats
    requires exists e :: e in events && e.Notified? && e.userId == users[i].id
    ensures var r := RefreshedBy(users, events, chats);
      i < |r| && r[i].username == chats[users[i].tgId].username && r[i].firstName == chats[users[i].tgId].firstName
    decreases |events|
  {
    var init := events[..|events| - 1];
    var e := events[|events| - 1];
    assert events == init + [e];
    var r := RefreshedBy(users, init, chats);
    RefreshedByKeeps(users, init, chats);
    if !(e.Notified? && e.userId == users[i].id) {
      var w :| w in events && w.Notified? && w.userId == users[i].id;
      assert w in init;
      RefreshedByNames(users, init, chats, i);
    }
  }
}
