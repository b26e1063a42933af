/**
 * The conversation handlers of the bot (handlers.py): the FSM data each chat
 * keeps (page, listings, hash -> name maps, the selection), the menus the
 * handlers answer with, and the subscription store they update.
 *
 * A handler's answer is a `Reply`. An exception that escapes a handler (a
 * KeyError on FSM data, an OSError from `os.listdir`, `scalar_one` finding
 * no user) is `Failed`; whatever the handler had already changed stays
 * changed, as it does in the running bot.
 */
module Handlers {
  import opened Wrappers
  import opened FileTree
  import opened Ordering
  import opened Paging
  import opened Store

  // ---------------------------------------------------------------------------
  // Directory listings

  /** `sorted([d for d in os.listdir(dir) if os.path.isdir(os.path.join(dir, d))])`; None where `os.listdir` raises. */
  function SortedDirs(fs: Node, path: seq<string>): (r: Option<seq<string>>)
    ensures r.None? <==> ListDir(fs, path).None?
    ensures r.Some? ==> IsSorted(r.value)
    ensures r.Some? ==> forall x :: x in r.value <==> x in DirNames(ListDir(fs, path).value)
  {
    match ListDir(fs, path)
    case None => None
    case Some(entries) =>
      var sorted := Sort(DirNames(entries));
      assert forall x :: x in sorted <==> x in multiset(sorted);
      Some(sorted)
  }

  /** `str.lower()` on ASCII letters; every other character is kept. */
  function Lower(s: string): string {
    seq(|s|, i requires 0 <= i < |s| => if 'A' <= s[i] <= 'Z' then (s[i] as int + 32) as char else s[i])
  }

  /** `d.lower() == "bim"`. */
  predicate IsBim(name: string) {
    Lower(name) == "bim"
  }

  /** The stage filter drops exactly the eight upper/lower-case spellings of "bim". */
  lemma BimSpellings(name: string)
    ensures IsBim(name) <==> |name| == 3 && name[0] in "bB" && name[1] in "iI" && name[2] in "mM"
  {
    if |name| == 3 && name[0] in "bB" && name[1] in "iI" && name[2] in "mM" {
      assert Lower(name)[0] == 'b' && Lower(name)[1] == 'i' && Lower(name)[2] == 'm';
    }
    if IsBim(name) {
      assert Lower(name)[0] == 'b' && Lower(name)[1] == 'i' && Lower(name)[2] == 'm';
    }
  }

  /** The names that are not "bim" in any case, in their order. */
  function DropBim(names: seq<string>): (r: seq<string>)
    ensures forall x :: x in r <==> x in names && !IsBim(x)
    ensures forall x :: !IsBim(x) ==> multiset(r)[x] == multiset(names)[x]
  {
    if names == [] then []
    else
      assert names == [names[0]] + names[1..];
      var rest := DropBim(names[1..]);
      if IsBim(names[0]) then rest else [names[0]] + rest
  }

  /** show_stages: the sorted sub-directories of the project, "bim" left out; None where `os.listdir` raises. */
  function ShowStages(fs: Node, project: string): (r: Option<seq<string>>)
    ensures r.None? <==> ListDir(fs, Components(project)).None?
    ensures r.Some? ==> IsSorted(r.value)
    ensures r.Some? ==> forall x :: x in r.value <==>
      x in DirNames(ListDir(fs, Components(project)).value) && !IsBim(x)
  {
    match ListDir(fs, Components(project))
    case None => None
    case Some(entries) =>
      var stages := Sort(DropBim(DirNames(entries)));
      assert forall x :: x in stages <==> x in multiset(stages);
      Some(stages)
  }

  lemma {:induction false} DropBimSorted(s: seq<string>)
    requires IsSorted(s)
    ensures IsSorted(DropBim(s))
  {
    if s != [] {
      var tail := s[1..];
      SortedTail(s);
      DropBimSorted(tail);
      var rest := DropBim(tail);
      if !IsBim(s[0]) {
        forall j | 0 <= j < |rest| ensures Le(s[0], rest[j]) {
          assert rest[j] in rest;
          var k :| 0 <= k < |tail| && tail[k] == rest[j];
          assert s[k + 1] == rest[j];
        }
        ConsSorted(s[0], rest);
      }
    }
  }

  /**
   * The stage menu is the project-style listing of the project folder with
   * "bim" taken out: filtering before or after sorting gives the same list.
   */
  lemma StagesAreListingWithoutBim(fs: Node, project: string)
    ensures ShowStages(fs, project).Some? <==> SortedDirs(fs, Components(project)).Some?
    ensures ShowStages(fs, project).Some? ==>
      ShowStages(fs, project).value == DropBim(SortedDirs(fs, Components(project)).value)
  {
    match ListDir(fs, Components(project))
    case None =>
    case Some(entries) =>
      var names := DirNames(entries);
      DropBimSorted(Sort(names));
      DropBimAfterSort(names);
      SortedUnique(Sort(DropBim(names)), DropBim(Sort(names)));
  }

  /** Filtering before or after sorting keeps the same names, each as often. */
  lemma DropBimAfterSort(names: seq<string>)
    ensures multiset(Sort(DropBim(names))) == multiset(DropBim(Sort(names)))
  {
    var a := Sort(DropBim(names));
    var b := DropBim(Sort(names));
    forall x ensures multiset(a)[x] == multiset(b)[x] {
      if IsBim(x) {
        assert x !in DropBim(names);
        assert x !in a by {
          assert x in a <==> x in multiset(DropBim(names));
        }
      }
    }
    assert multiset(a) == multiset(b);
  }

  // ---------------------------------------------------------------------------
  // Callback hashes and keyboards

  /**
   * The `hash_map` a menu handler builds next to its keyboard: each listed
   * name under its hash, a later name overwriting an earlier one with the
   * same hash.
   */
  function HashMapOf(items: seq<string>, hash: string -> string): (m: map<string, string>)
    ensures m.Keys == set x | x in items :: hash(x)
    ensures forall k :: k in m ==> m[k] in items && hash(m[k]) == k
  {
    if items == [] then map[]
    else
      var init := items[..|items| - 1];
      var last := items[|items| - 1];
      assert forall x :: x in items <==> x in init || x == last by {
        assert items == init + [last];
      }
      HashMapOf(init, hash)[hash(last) := last]
  }

  /** On a collision of hashes the map keeps the name listed last. */
  lemma {:induction false} HashMapLastWins(items: seq<string>, hash: string -> string, i: nat)
    requires i < |items|
    requires forall j :: i < j < |items| ==> hash(items[j]) != hash(items[i])
    ensures HashMapOf(items, hash)[hash(items[i])] == items[i]
  {
    var init := items[..|items| - 1];
    if i < |items| - 1 {
      assert init[i] == items[i];
      forall j | i < j < |init| ensures hash(init[j]) != hash(init[i]) {
        assert init[j] == items[j];
      }
      HashMapLastWins(init, hash, i);
    }
  }

  /** `hash_map.get(h)` as the handlers test it: "" stands for both a missing hash and an empty name, which `if not ...` treats alike. */
  function Picked(m: map<string, string>, h: string): string {
    if h in m then m[h] else ""
  }

  datatype Button = Button(text: string, data: string)

  /** One button per name: its text is `caption + name`, its callback data `prefix + hash(name)`. */
  function ItemButtons(items: seq<string>, caption: string, prefix: string, hash: string -> string): seq<Button> {
    seq(|items|, i requires 0 <= i < |items| => Button(caption + items[i], prefix + hash(items[i])))
  }

  /**
   * The hash a name's button carries leads back, through the map stored with
   * the keyboard, to that name, as long as no other listed name shares it.
   */
  lemma ButtonSelectsItem(items: seq<string>, caption: string, prefix: string, hash: string -> string, i: nat)
    requires i < |items| && items[i] != ""
    requires forall j :: 0 <= j < |items| && hash(items[j]) == hash(items[i]) ==> items[j] == items[i]
    ensures ItemButtons(items, caption, prefix, hash)[i] == Button(caption + items[i], prefix + hash(items[i]))
    ensures Picked(HashMapOf(items, hash), hash(items[i])) == items[i]
  {
    var m := HashMapOf(items, hash);
    assert hash(items[i]) in m.Keys by {
      assert items[i] in items;
    }
    var j :| 0 <= j < |items| && items[j] == m[hash(items[i])];
  }

  /** The loop of a menu handler: the item buttons and the hash map, built together name by name. */
  method ItemKeyboard(items: seq<string>, caption: string, prefix: string, hash: string -> string)
    returns (buttons: seq<Button>, m: map<string, string>)
    ensures buttons == ItemButtons(items, caption, prefix, hash)
    ensures m == HashMapOf(items, hash)
  {
    buttons, m := [], map[];
    var i := 0;
    while i < |items|
      invariant 0 <= i <= |items|
      invariant |buttons| == i
      invariant forall j :: 0 <= j < i ==> buttons[j] == Button(caption + items[j], prefix + hash(items[j]))
      invariant m == HashMapOf(items[..i], hash)
    {
      assert items[..i + 1][..i] == items[..i];
      m := m[hash(items[i]) := items[i]];
      buttons := buttons + [Button(caption + items[i], prefix + hash(items[i]))];
      i := i + 1;
    }
    assert items[..|items|] == items;
  }

  const BackLabel := "⬅️ Назад"
  const ForwardLabel := "➡️ Вперёд"

  /** A page of a paginated menu: the names, then "back" when `page > 1`, then "forward" when `page * 6 < total`. */
  function PagedButtons(items: seq<string>, page: int, total: nat, caption: string, prefix: string,
                        prevData: string, nextData: string, hash: string -> string): seq<Button> {
    ItemButtons(items, caption, prefix, hash)
    + (if HasBack(page) then [Button(BackLabel, prevData)] else [])
    + (if HasForward(page, total) then [Button(ForwardLabel, nextData)] else [])
  }

  /** Some button of the keyboard sends `data`. */
  predicate Offers(buttons: seq<Button>, data: string) {
    exists i :: 0 <= i < |buttons| && buttons[i].data == data
  }

  /**
   * A paged keyboard offers "back" exactly when the page is past the first,
   * "forward" exactly when later items exist, and a button for every name
   * on the page.
   */
  lemma PagedNav(items: seq<string>, page: int, total: nat, caption: string, prefix: string,
                 prevData: string, nextData: string, hash: string -> string)
    requires !(prefix <= prevData) && !(prefix <= nextData) && prevData != nextData
    ensures var kb := PagedButtons(items, page, total, caption, prefix, prevData, nextData, hash);
      && (Offers(kb, prevData) <==> HasBack(page))
      && (Offers(kb, nextData) <==> HasForward(page, total))
      && (forall i :: 0 <= i < |items| ==> Offers(kb, prefix + hash(items[i])))
  {
    var names := ItemButtons(items, caption, prefix, hash);
    var back := if HasBack(page) then [Button(BackLabel, prevData)] else [];
    var forward := if HasForward(page, total) then [Button(ForwardLabel, nextData)] else [];
    var kb := PagedButtons(items, page, total, caption, prefix, prevData, nextData, hash);
    assert kb == names + (back + forward);
    NamesCarryPrefix(items, caption, prefix, hash);
    forall i | 0 <= i < |items| ensures Offers(kb, prefix + hash(items[i])) {
      assert kb[i] == names[i];
    }
    NavOffers(names, back + forward, prefix, prevData);
    NavOffers(names, back + forward, prefix, nextData);
    if HasBack(page) {
      assert kb[|names|] == Button(BackLabel, prevData);
    }
    if HasForward(page, total) {
      assert kb[|kb| - 1] == Button(ForwardLabel, nextData);
    }
  }

  /** Every item button's callback data starts with the prefix. */
  lemma NamesCarryPrefix(items: seq<string>, caption: string, prefix: string, hash: string -> string)
    ensures forall i :: 0 <= i < |items| ==> prefix <= ItemButtons(items, caption, prefix, hash)[i].data
  {
    forall i | 0 <= i < |items| ensures prefix <= ItemButtons(items, caption, prefix, hash)[i].data {
      var d := ItemButtons(items, caption, prefix, hash)[i].data;
      assert d == prefix + hash(items[i]);
      assert d[..|prefix|] == prefix;
    }
  }

  /** Data that does not start with the prefix is offered by the item buttons followed by `nav` exactly when `nav` offers it. */
  lemma NavOffers(names: seq<Button>, nav: seq<Button>, prefix: string, data: string)
    requires forall i :: 0 <= i < |names| ==> prefix <= names[i].data
    requires !(prefix <= data)
    ensures Offers(names + nav, data) <==> Offers(nav, data)
  {
    var kb := names + nav;
    if Offers(kb, data) {
      var i :| 0 <= i < |kb| && kb[i].data == data;
      if i < |names| {
        assert false;
      }
      assert nav[i - |names|] == kb[i];
    }
    if Offers(nav, data) {
      var j :| 0 <= j < |nav| && nav[j].data == data;
      assert kb[|names| + j] == nav[j];
    }
  }

  // ---------------------------------------------------------------------------
  // The session's FSM data and the replies

  /** `state.get_data()` of one chat: a key that was never written is None. */
  datatype FsmData = FsmData(
    page: Option<int>,
    projects: Option<seq<string>>,
    subs: Option<seq<string>>,
    projectHashes: Option<map<string, string>>,
    stageHashes: Option<map<string, string>>,
    taskHashes: Option<map<string, string>>,
    subHashes: Option<map<string, string>>,
    selectedProject: Option<string>,
    selectedStage: Option<string>)

  const NoData := FsmData(None, None, None, None, None, None, None, None, None)

  /** What the chat sees: a menu with buttons, a plain message, an alert, or nothing because an exception escaped. */
  datatype Reply = Menu(text: string, buttons: seq<Button>) | Notice(text: string) | Alert(text: string) | Failed

  const NoProjects := "❌ Нет доступных проектов."
  const ProjectsPrompt := "Выберите проект:"
  const StagesPrompt := "Выберите стадию:"
  const ProjectNotFound := "❌ Проект не найден."
  const NoStages := "❌ Нет доступных стадий для проекта."
  const StageNotFound := "❌ Стадия не найдена."
  const NoTasks := "❌ Нет доступных заданий для стадии."
  const TasksPrompt := "Выберите задание:"
  const TaskNotFound := "❌ Задание не найдено."
  const NoSubs := "❌ У вас нет подписок."
  const SubsPrompt := "Ваши подписки (нажмите для удаления):"
  const SubNotFound := "❌ Подписка не найдена."

  function SubscribedText(path: string): string {
    "✅ Теперь вы будете получать уведомления о любых изменениях в папке:\n<code>" + path + "</code>"
  }

  /** show_projects_page: the page of projects (default page 1) with its keyboard; stores the hash map and the page. */
  function ProjectsPage(d: FsmData, hash: string -> string): (FsmData, Reply) {
    var page := d.page.GetOr(1);
    var shown := Paginate(d.projects.GetOr([]), page);
    (d.(projectHashes := Some(HashMapOf(shown.0, hash)), page := Some(page)),
     Menu(ProjectsPrompt, PagedButtons(shown.0, page, shown.1, "", "proj:", "page_prev", "page_next", hash)))
  }

  /** show_subs_page: like the projects page, but `page` and `subs` must be present (KeyError otherwise). */
  function SubsPage(d: FsmData, hash: string -> string): (FsmData, Reply) {
    if d.page.None? || d.subs.None? then (d, Failed)
    else
      var shown := Paginate(d.subs.value, d.page.value);
      (d.(subHashes := Some(HashMapOf(shown.0, hash)), page := d.page),
       Menu(SubsPrompt, PagedButtons(shown.0, d.page.value, shown.1, "❌ ", "delete_sub:", "subs_page_prev", "subs_page_next", hash)))
  }

  /** show_button_stages: one button per stage and a "back" button; stores the hash map. */
  function StagesMenu(d: FsmData, stages: seq<string>, hash: string -> string): (FsmData, Reply) {
    (d.(stageHashes := Some(HashMapOf(stages, hash))),
     Menu(StagesPrompt, ItemButtons(stages, "", "stage:", hash) + [Button(BackLabel, "proj_back")]))
  }

  /** The tail shared by project_selected and stage_back: list the stages of `project` and show them. */
  function StagesOutcome(fs: Node, d: FsmData, project: string, hash: string -> string): (FsmData, Reply) {
    match ShowStages(fs, project)
    case None => (d, Failed)
    case Some(stages) => if stages == [] then (d, Notice(NoStages)) else StagesMenu(d, stages, hash)
  }

  /** task_selected stores `username or ''` over an existing user and the username as given in a new one. */
  function TaskUsername(users: seq<User>, tgId: int, username: Option<string>): Option<string> {
    if FindUser(users, tgId).Some? then Some(username.GetOr("")) else username
  }

  /** `[s for s in subs if s != folder_path]`. */
  function Without(xs: seq<string>, x: string): (r: seq<string>)
    ensures x !in r
    ensures forall y :: y != x ==> multiset(r)[y] == multiset(xs)[y]
  {
    if xs == [] then []
    else
      assert xs == [xs[0]] + xs[1..];
      var rest := Without(xs[1..], x);
      if xs[0] == x then rest else [xs[0]] + rest
  }

  // ---------------------------------------------------------------------------
  // Properties of the menus and of the session list

  /** The projects page stores the page it shows and offers "back" and "forward" exactly as the page position allows. */
  lemma ProjectsPageNav(d: FsmData, hash: string -> string)
    ensures var page := d.page.GetOr(1);
      var r := ProjectsPage(d, hash);
      && r.0.page == Some(page) && r.1.Menu?
      && (Offers(r.1.buttons, "page_prev") <==> page > 1)
      && (Offers(r.1.buttons, "page_next") <==> page * ItemsPerPage < |d.projects.GetOr([])|)
  {
    var page := d.page.GetOr(1);
    var shown := Paginate(d.projects.GetOr([]), page);
    assert "proj:"[1] != "page_prev"[1] && "proj:"[1] != "page_next"[1];
    assert "page_prev"[5] != "page_next"[5];
    PagedNav(shown.0, page, shown.1, "", "proj:", "page_prev", "page_next", hash);
  }

  /** The subscriptions page, once `page` and `subs` are set, offers "back" and "forward" exactly as the page position allows. */
  lemma SubsPageNav(d: FsmData, hash: string -> string)
    ensures SubsPage(d, hash).1.Failed? <==> d.page.None? || d.subs.None?
    ensures d.page.Some? && d.subs.Some? ==>
      var r := SubsPage(d, hash);
      && r.0.page == d.page && r.1.Menu?
      && (Offers(r.1.buttons, "subs_page_prev") <==> d.page.value > 1)
      && (Offers(r.1.buttons, "subs_page_next") <==> d.page.value * ItemsPerPage < |d.subs.value|)
  {
    if d.page.Some? && d.subs.Some? {
      var shown := Paginate(d.subs.value, d.page.value);
      assert "delete_sub:"[0] != "subs_page_prev"[0] && "delete_sub:"[0] != "subs_page_next"[0];
      assert "subs_page_prev"[10] != "subs_page_next"[10];
      PagedNav(shown.0, d.page.value, shown.1, "❌ ", "delete_sub:", "subs_page_prev", "subs_page_next", hash);
    }
  }

  /**
   * Pressing the button of the i-th project on the shown page selects that
   * project, when no other project on the page shares its hash.
   */
  lemma ProjectButtonSelects(d: FsmData, hash: string -> string, i: nat)
    requires var shown := Paginate(d.projects.GetOr([]), d.page.GetOr(1)).0;
      && i < |shown| && shown[i] != ""
      && forall j :: 0 <= j < |shown| && hash(shown[j]) == hash(shown[i]) ==> shown[j] == shown[i]
    ensures var shown := Paginate(d.projects.GetOr([]), d.page.GetOr(1)).0;
      var r := ProjectsPage(d, hash);
      && r.1.buttons[i] == Button(shown[i], "proj:" + hash(shown[i]))
      && Picked(r.0.projectHashes.value, hash(shown[i])) == shown[i]
  {
    var shown := Paginate(d.projects.GetOr([]), d.page.GetOr(1)).0;
    ButtonSelectsItem(shown, "", "proj:", hash, i);
    assert "" + shown[i] == shown[i];
  }

  lemma {:induction false} WithoutAppend(a: seq<string>, b: seq<string>, x: string)
    ensures Without(a + b, x) == Without(a, x) + Without(b, x)
  {
    if a == [] {
      assert a + b == b;
    } else {
      assert (a + b)[0] == a[0] && (a + b)[1..] == a[1..] + b;
      WithoutAppend(a[1..], b, x);
    }
  }

  /** Dropping a path that is not in the list leaves the list as it was. */
  lemma {:induction false} WithoutAbsent(xs: seq<string>, x: string)
    requires x !in xs
    ensures Without(xs, x) == xs
  {
    if xs != [] {
      WithoutAbsent(xs[1..], x);
      assert xs == [xs[0]] + xs[1..];
    }
  }

  /**
   * After a delete the session's list is again the user's subscriptions in
   * store order: removing the key from the store and the path from the list
   * agree.
   */
  lemma {:induction false} DeleteKeepsListInStep(subs: seq<Subscription>, userId: nat, folder: string)
    ensures PathsOf(RemoveKey(subs, userId, folder), userId) == Without(PathsOf(subs, userId), folder)
  {
    if subs != [] {
      var s0 := subs[0];
      var tail := subs[1..];
      DeleteKeepsListInStep(tail, userId, folder);
      var paths := PathsOf(tail, userId);
      if s0.userId == userId {
        assert ([s0.folderPath] + paths)[1..] == paths;
      }
      if !(s0.userId == userId && s0.folderPath == folder) {
        assert ([s0] + RemoveKey(tail, userId, folder))[1..] == RemoveKey(tail, userId, folder);
      }
    }
  }

  // ---------------------------------------------------------------------------
  // The handlers

  class Session {
    /** The FSM data of one chat. */
    var data: FsmData

    /** A chat that has not talked to the bot yet. */
    constructor ()
      ensures data == NoData
    {
      data := NoData;
    }

    method ShowProjectsPage(hash: string -> string) returns (reply: Reply)
      modifies this
      ensures (data, reply) == ProjectsPage(old(data), hash)
    {
      var page := data.page.GetOr(1);
      var shown := Paginate(data.projects.GetOr([]), page);
      var buttons, m := ItemKeyboard(shown.0, "", "proj:", hash);
      var back, forward := [], [];
      if HasBack(page) {
        back := [Button(BackLabel, "page_prev")];
      }
      if HasForward(page, shown.1) {
        forward := [Button(ForwardLabel, "page_next")];
      }
      buttons := buttons + back + forward;
      data := data.(projectHashes := Some(m), page := Some(page));
      reply := Menu(ProjectsPrompt, buttons);
    }

    /** cmd_subscribe: refresh the user, list the projects, start at page 1. */
    method CmdSubscribe(db: Database, fs: Node, tgId: int, username: Option<string>, firstName: Option<string>,
                        hash: string -> string) returns (reply: Reply)
      requires db.Valid()
      modifies this, db
      ensures db.Valid() && db.subs == old(db.subs)
      ensures (db.users, db.nextId) == Upsert(old(db.users), old(db.nextId), tgId, username, firstName)
      ensures match SortedDirs(fs, [])
        case None => reply == Failed && data == old(data)
        case Some(projects) =>
          if projects == [] then reply == Notice(NoProjects) && data == old(data)
          else (data, reply) == ProjectsPage(old(data).(projects := Some(projects), page := Some(1)), hash)
    {
      var id := db.UpsertUser(tgId, username, firstName);
      var listing := SortedDirs(fs, []);
      if listing.None? {
        return Failed;
      }
      if listing.value == [] {
        return Notice(NoProjects);
      }
      data := data.(projects := Some(listing.value), page := Some(1));
      reply := ShowProjectsPage(hash);
    }

    /** page_next: one page further. */
    method PageNext(hash: string -> string) returns (reply: Reply)
      modifies this
      ensures (data, reply) == ProjectsPage(old(data).(page := Some(Paging.PageNext(old(data).page.GetOr(1)))), hash)
    {
      data := data.(page := Some(Paging.PageNext(data.page.GetOr(1))));
      reply := ShowProjectsPage(hash);
    }

    /** page_prev: one page back, never below 1. */
    method PagePrev(hash: string -> string) returns (reply: Reply)
      modifies this
      ensures (data, reply) == ProjectsPage(old(data).(page := Some(Paging.PagePrev(old(data).page.GetOr(1)))), hash)
    {
      data := data.(page := Some(Paging.PagePrev(data.page.GetOr(1))));
      reply := ShowProjectsPage(hash);
    }

    method ShowButtonStages(stages: seq<string>, hash: string -> string) returns (reply: Reply)
      modifies this
      ensures (data, reply) == StagesMenu(old(data), stages, hash)
    {
      var buttons, m := ItemKeyboard(stages, "", "stage:", hash);
      buttons := buttons + [Button(BackLabel, "proj_back")];
      data := data.(stageHashes := Some(m));
      reply := Menu(StagesPrompt, buttons);
    }

    /**
     * project_selected: an unknown hash only raises an alert; a known one is
     * stored as the selected project before its stages are listed.
     */
    method ProjectSelected(fs: Node, h: string, hash: string -> string) returns (reply: Reply)
      modifies this
      ensures match old(data).projectHashes
        case None => reply == Failed && data == old(data)
        case Some(m) =>
          if Picked(m, h) == "" then reply == Alert(ProjectNotFound) && data == old(data)
          else (data, reply) == StagesOutcome(fs, old(data).(selectedProject := Some(Picked(m, h))), Picked(m, h), hash)
    {
      if data.projectHashes.None? {
        return Failed;
      }
      var project := Picked(data.projectHashes.value, h);
      if project == "" {
        return Alert(ProjectNotFound);
      }
      data := data.(selectedProject := Some(project));
      var stages := ShowStages(fs, project);
      if stages.None? {
        return Failed;
      }
      if stages.value == [] {
        return Notice(NoStages);
      }
      reply := ShowButtonStages(stages.value, hash);
    }

    /** proj_back: the projects page again. */
    method ProjectBack(hash: string -> string) returns (reply: Reply)
      modifies this
      ensures (data, reply) == ProjectsPage(old(data), hash)
    {
      reply := ShowProjectsPage(hash);
    }

    /**
     * stage_selected: an unknown hash only raises an alert; a known one is
     * stored as the selected stage before the project is read and its tasks
     * are listed.
     */
    method StageSelected(fs: Node, h: string, hash: string -> string) returns (reply: Reply)
      modifies this
      ensures match old(data).stageHashes
        case None => reply == Failed && data == old(data)
        case Some(m) =>
          var stage := Picked(m, h);
          if stage == "" then reply == Alert(StageNotFound) && data == old(data)
          else
            var d := old(data).(selectedStage := Some(stage));
            if d.selectedProject.None? then reply == Failed && data == d
            else
              match SortedDirs(fs, Components(PathJoin(d.selectedProject.value, stage)))
              case None => reply == Failed && data == d
              case Some(tasks) =>
                if tasks == [] then reply == Notice(NoTasks) && data == d
                else (data == d.(taskHashes := Some(HashMapOf(tasks, hash)))
                  && reply == Menu(TasksPrompt, ItemButtons(tasks, "", "task:", hash) + [Button(BackLabel, "stage_back")]))
    {
      if data.stageHashes.None? {
        return Failed;
      }
      var stage := Picked(data.stageHashes.value, h);
      if stage == "" {
        return Alert(StageNotFound);
      }
      data := data.(selectedStage := Some(stage));
      if data.selectedProject.None? {
        return Failed;
      }
      var listing := SortedDirs(fs, Components(PathJoin(data.selectedProject.value, stage)));
      if listing.None? {
        return Failed;
      }
      var tasks := listing.value;
      if tasks == [] {
        return Notice(NoTasks);
      }
      var buttons, m := ItemKeyboard(tasks, "", "task:", hash);
      buttons := buttons + [Button(BackLabel, "stage_back")];
      data := data.(taskHashes := Some(m));
      reply := Menu(TasksPrompt, buttons);
    }

    /** stage_back: the stages of the selected project again, or an alert when none is selected. */
    method StageBack(fs: Node, hash: string -> string) returns (reply: Reply)
      modifies this
      ensures var project := old(data).selectedProject.GetOr("");
        if project == "" then reply == Alert(ProjectNotFound) && data == old(data)
        else (data, reply) == StagesOutcome(fs, old(data), project, hash)
    {
      var project := data.selectedProject.GetOr("");
      if project == "" {
        return Alert(ProjectNotFound);
      }
      var stages := ShowStages(fs, project);
      if stages.None? {
        return Failed;
      }
      if stages.value == [] {
        return Notice(NoStages);
      }
      reply := ShowButtonStages(stages.value, hash);
    }

    /**
     * task_selected: get-or-create of the user and of the subscription to
     * `project/stage/task`. The FSM data is only read.
     */
    method TaskSelected(db: Database, h: string, tgId: int, username: Option<string>, firstName: Option<string>,
                        hash: string -> string) returns (reply: Reply)
      requires db.Valid()
      modifies db
      ensures db.Valid()
      ensures match data.taskHashes
        case None => reply == Failed && unchanged(db)
        case Some(m) =>
          var task := Picked(m, h);
          if task == "" then reply == Alert(TaskNotFound) && unchanged(db)
          else if data.selectedProject.None? || data.selectedStage.None? then reply == Failed && unchanged(db)
          else
            var path := TaskPath(data.selectedProject.value, data.selectedStage.value, task);
            && reply == Notice(SubscribedText(path))
            && (db.users, db.nextId) == Upsert(old(db.users), old(db.nextId), tgId, TaskUsername(old(db.users), tgId, username), firstName)
            && FindUser(db.users, tgId).Some?
            && db.subs == AddIfAbsent(old(db.subs), FindUser(db.users, tgId).value.id, path)
    {
      if data.taskHashes.None? {
        return Failed;
      }
      var task := Picked(data.taskHashes.value, h);
      if task == "" {
        return Alert(TaskNotFound);
      }
      if data.selectedProject.None? || data.selectedStage.None? {
        return Failed;
      }
      var path := TaskPath(data.selectedProject.value, data.selectedStage.value, task);
      var id := db.SubscribeUser(tgId, TaskUsername(db.users, tgId, username), firstName, path);
      reply := Notice(SubscribedText(path));
    }

    method ShowSubsPage(hash: string -> string) returns (reply: Reply)
      modifies this
      ensures (data, reply) == SubsPage(old(data), hash)
    {
      if data.page.None? || data.subs.None? {
        return Failed;
      }
      var page := data.page.value;
      var shown := Paginate(data.subs.value, page);
      var buttons, m := ItemKeyboard(shown.0, "❌ ", "delete_sub:", hash);
      var back, forward := [], [];
      if HasBack(page) {
        back := [Button(BackLabel, "subs_page_prev")];
      }
      if HasForward(page, shown.1) {
        forward := [Button(ForwardLabel, "subs_page_next")];
      }
      buttons := buttons + back + forward;
      data := data.(subHashes := Some(m), page := Some(page));
      reply := Menu(SubsPrompt, buttons);
    }

    /** cmd_my_subs: refresh the user, then list their subscriptions from page 1. */
    method CmdMySubs(db: Database, tgId: int, username: Option<string>, firstName: Option<string>,
                     hash: string -> string) returns (reply: Reply)
      requires db.Valid()
      modifies this, db
      ensures db.Valid() && db.subs == old(db.subs)
      ensures (db.users, db.nextId) == Upsert(old(db.users), old(db.nextId), tgId, username, firstName)
      ensures FindUser(db.users, tgId).Some?
      ensures var paths := PathsOf(db.subs, FindUser(db.users, tgId).value.id);
        if paths == [] then reply == Notice(NoSubs) && data == old(data)
        else (data, reply) == SubsPage(old(data).(subs := Some(paths), page := Some(1)), hash)
    {
      var id := db.UpsertUser(tgId, username, firstName);
      // The source's "no such user" branch cannot be reached right after the upsert.
      var paths := PathsOf(db.subs, id);
      if paths == [] {
        return Notice(NoSubs);
      }
      data := data.(subs := Some(paths), page := Some(1));
      reply := ShowSubsPage(hash);
    }

    /** subs_paginate_callback: one page back or forward (no lower bound), any other data keeps the page. */
    method SubsPaginate(callbackData: string, hash: string -> string) returns (reply: Reply)
      modifies this
      ensures (data, reply) == SubsPage(old(data).(page := Some(SubsPageStep(old(data).page.GetOr(1), callbackData))), hash)
    {
      data := data.(page := Some(SubsPageStep(data.page.GetOr(1), callbackData)));
      reply := ShowSubsPage(hash);
    }

    /**
     * delete_subscription: an unknown hash only raises an alert; otherwise
     * the (user, folder path) row is deleted, the path leaves the session's
     * list and the page is shown again.
     */
    method DeleteSubscription(db: Database, h: string, tgId: int, hash: string -> string) returns (reply: Reply)
      requires db.Valid()
      modifies this, db
      ensures db.Valid() && db.users == old(db.users) && db.nextId == old(db.nextId)
      ensures var folder := Picked(old(data).subHashes.GetOr(map[]), h);
        if folder == "" then reply == Alert(SubNotFound) && data == old(data) && db.subs == old(db.subs)
        else match FindUser(old(db.users), tgId)
          case None => reply == Failed && data == old(data) && db.subs == old(db.subs)
          case Some(user) =>
            && db.subs == RemoveKey(old(db.subs), user.id, folder)
            && (data, reply) == SubsPage(old(data).(subs := Some(Without(old(data).subs.GetOr([]), folder))), hash)
    {
      var folder := Picked(data.subHashes.GetOr(map[]), h);
      if folder == "" {
        return Alert(SubNotFound);
      }
      var user := FindUser(db.users, tgId);
      if user.None? {
        return Failed;
      }
      db.Unsubscribe(user.value.id, folder);
      data := data.(subs := Some(Without(data.subs.GetOr([]), folder)));
      reply := ShowSubsPage(hash);
    }
  }
}
