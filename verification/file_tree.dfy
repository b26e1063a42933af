/**
 * The part of the filesystem below FILES_ROOT, as the bot sees it through
 * `os.listdir`, `os.path.isdir`, `os.path.exists`, `os.path.getmtime` and
 * `os.walk`, together with the path arithmetic of `os.path.join`.
 */
module FileTree {
  import opened Wrappers

  /**
   * An entry of the tree. `mtime` is None when `os.path.getmtime` raises for
   * it; `listable` is false when the directory cannot be listed or entered
   * (so `os.listdir` raises, `os.walk` yields nothing for it, and nothing
   * below it exists as far as `os.path.exists` can tell).
   */
  datatype Node =
    | File(name: string, mtime: Option<real>)
    | Dir(name: string, mtime: Option<real>, listable: bool, entries: seq<Node>)

  /** The entry called `name` among `entries` (the first one, in listing order). */
  function ChildNamed(entries: seq<Node>, name: string): (r: Option<Node>)
    ensures r.None? <==> forall i :: 0 <= i < |entries| ==> entries[i].name != name
    ensures r.Some? ==> exists i :: 0 <= i < |entries| && entries[i] == r.value && r.value.name == name
                                    && forall j :: 0 <= j < i ==> entries[j].name != name
  {
    if entries == [] then None
    else if entries[0].name == name then Some(entries[0])
    else
      var r := ChildNamed(entries[1..], name);
      assert forall i :: 1 <= i < |entries| ==> entries[i] == entries[1..][i - 1];
      r
  }

  /** The entry at `path` (a sequence of components) below `n`, if it exists. */
  function Resolve(n: Node, path: seq<string>): Option<Node>
    decreases |path|
  {
    if path == [] then Some(n)
    else match n
      case File(_, _) => None
      case Dir(_, _, listable, entries) =>
        if !listable then None
        else match ChildNamed(entries, path[0])
          case None => None
          case Some(c) => Resolve(c, path[1..])
  }

  /** Resolving a path in two parts: first to the entry the first part names, then below it. */
  lemma {:induction false} ResolveAppend(n: Node, a: seq<string>, b: seq<string>)
    ensures Resolve(n, a + b) == match Resolve(n, a) case None => None case Some(m) => Resolve(m, b)
    decreases |a|
  {
    if a == [] {
      assert a + b == b;
    } else {
      assert (a + b)[0] == a[0] && (a + b)[1..] == a[1..] + b;
      match n
      case File(_, _) =>
      case Dir(_, _, listable, entries) =>
        if listable {
          match ChildNamed(entries, a[0])
          case None =>
          case Some(c) => ResolveAppend(c, a[1..], b);
        }
    }
  }

  /** `os.listdir` of the directory at `path`: None where it raises (missing, not a directory, not listable). */
  function ListDir(root: Node, path: seq<string>): (r: Option<seq<Node>>)
    ensures r.Some? <==> (Resolve(root, path).Some? && Resolve(root, path).value.Dir? && Resolve(root, path).value.listable)
  {
    match Resolve(root, path)
    case Some(Dir(_, _, true, entries)) => Some(entries)
    case _ => None
  }

  /** The names of the entries that `os.path.isdir` accepts, in listing order. */
  function DirNames(entries: seq<Node>): (r: seq<string>)
    ensures forall x :: x in r <==> exists i :: 0 <= i < |entries| && entries[i].Dir? && entries[i].name == x
    ensures |r| <= |entries|
  {
    if entries == [] then []
    else
      var rest := DirNames(entries[1..]);
      assert forall i :: 1 <= i < |entries| ==> entries[i] == entries[1..][i - 1];
      if entries[0].Dir? then [entries[0].name] + rest else rest
  }

  // ---------------------------------------------------------------------------
  // Paths

  /** `os.path.join(a, b)` on POSIX: an absolute `b` replaces `a`; a separator is added unless `a` is empty or ends in one. */
  function PathJoin(a: string, b: string): string {
    if |b| > 0 && b[0] == '/' then b
    else if a == "" || a[|a| - 1] == '/' then a + b
    else a + "/" + b
  }

  /** `s.split('/')`: always at least one (possibly empty) piece. */
  function Split(s: string): (r: seq<string>)
    ensures |r| >= 1
  {
    if s == [] then [""]
    else
      var rest := Split(s[1..]);
      if s[0] == '/' then [""] + rest else [[s[0]] + rest[0]] + rest[1..]
  }

  function NonEmpty(parts: seq<string>): (r: seq<string>)
    ensures forall x :: x in r <==> x in parts && x != ""
  {
    if parts == [] then []
    else if parts[0] == "" then NonEmpty(parts[1..])
    else [parts[0]] + NonEmpty(parts[1..])
  }

  /** The components of a path as the operating system resolves it: repeated separators count as one. */
  function Components(s: string): seq<string> {
    NonEmpty(Split(s))
  }

  /** `os.path.join(project, stage, task)`: the folder path a new subscription stores. */
  function TaskPath(project: string, stage: string, task: string): string {
    PathJoin(PathJoin(project, stage), task)
  }

  /** A name that `os.listdir` can return: non-empty and without a separator. */
  predicate IsName(s: string) {
    s != "" && '/' !in s
  }

  lemma {:induction false} NonEmptyAppend(xs: seq<string>, ys: seq<string>)
    ensures NonEmpty(xs + ys) == NonEmpty(xs) + NonEmpty(ys)
  {
    if xs == [] {
      assert xs + ys == ys;
    } else {
      assert (xs + ys)[1..] == xs[1..] + ys;
      NonEmptyAppend(xs[1..], ys);
    }
  }

  /** Splitting at a separator splits the pieces on both sides of it independently. */
  lemma {:induction false} SplitAround(a: string, b: string)
    ensures Split(a + "/" + b) == Split(a) + Split(b)
  {
    if a == [] {
      assert a + "/" + b == "/" + b;
      assert ("/" + b)[1..] == b;
    } else {
      assert (a + "/" + b)[1..] == a[1..] + "/" + b;
      SplitAround(a[1..], b);
    }
  }

  lemma {:induction false} SplitName(s: string)
    requires '/' !in s
    ensures Split(s) == [s]
  {
    if s != [] {
      assert s == [s[0]] + s[1..];
      SplitName(s[1..]);
    }
  }

  /** Components on both sides of a separator add up. */
  lemma ComponentsAround(a: string, b: string)
    ensures Components(a + "/" + b) == Components(a) + Components(b)
  {
    SplitAround(a, b);
    NonEmptyAppend(Split(a), Split(b));
  }

  /** A trailing separator adds no component. */
  lemma TrailingSeparator(a: string)
    ensures Components(a + "/") == Components(a)
  {
    ComponentsAround(a, "");
    assert a + "/" + "" == a + "/";
    assert Components("") == [];
  }

  /** Joining a relative path onto a base appends its components to the base's. */
  lemma ComponentsOfJoin(a: string, b: string)
    requires !(|b| > 0 && b[0] == '/')
    ensures Components(PathJoin(a, b)) == Components(a) + Components(b)
  {
    if a == "" {
      assert a + b == b;
      assert Components(a) == [];
    } else if a[|a| - 1] == '/' {
      var a' := a[..|a| - 1];
      assert a == a' + "/";
      assert PathJoin(a, b) == a' + "/" + b;
      ComponentsAround(a', b);
      TrailingSeparator(a');
    } else {
      ComponentsAround(a, b);
    }
  }

  /** A subscription's folder path names exactly the project, stage and task chosen, and resolves back to them. */
  lemma TaskPathComponents(project: string, stage: string, task: string)
    requires IsName(project) && IsName(stage) && IsName(task)
    ensures TaskPath(project, stage, task) == project + "/" + stage + "/" + task
    ensures Components(TaskPath(project, stage, task)) == [project, stage, task]
  {
    assert PathJoin(project, stage) == project + "/" + stage;
    ComponentsAround(project, stage);
    ComponentsAround(project + "/" + stage, task);
    NameComponents(project);
    NameComponents(stage);
    NameComponents(task);
  }

  lemma NameComponents(s: string)
    requires IsName(s)
    ensures Components(s) == [s]
  {
    SplitName(s);
    assert NonEmpty([s]) == [s] + NonEmpty([]);
  }
}
