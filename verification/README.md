# Folder-change notification bot: a verified model of its core

The bot lets Telegram users subscribe to task folders on a file server
(`project/stage/task` under `FILES_ROOT`). A background watcher polls every
subscribed task folder, finds the freshest `Data` sub-folder and notifies
the subscriber when its modification time moves forward by at least a whole
second. Administrators can list all users with their subscriptions.

This project models the three pieces of sequential logic underneath the
Telegram and SQL plumbing and proves what they guarantee:

- **The change detector and the polling pass** (`file_watcher.dfy`, module
  `FileWatcher`). `FolderMtime` is the running maximum over `os.walk`.
  `FreshestData` is the loop that picks the freshest `Data` folder.
  `CheckFolderUpdates` is one pass over the subscription table, updating
  rows in place. A pass's writes and notifications are logged as `Event`s,
  in the order they happen. Each method is proved equal to a specification
  function (`Detect`, `Freshest`, `Pass`). The lemmas then prove:
  - each scan outcome leads to its decision, and a row reached before any
    error ends the pass with that decision applied;
  - monotonicity of the stored time;
  - "notify only right after the commit";
  - exactly one notification per forward move;
  - a second pass over an unchanged tree does nothing;
  - an error stops the rest of the pass;
  - the users table changes only by the name refresh before each
    notification.
- **The subscription store and the chat handlers** (`store.dfy`, module
  `Store`; `handlers.dfy`, module `Handlers`; `paging.dfy`, module `Paging`).
  - The tables are a `Database` object with the uniqueness constraints of
    the schema.
  - Each chat's FSM data is a `Session` object whose handler methods
    update it and reply with a menu, a message, an alert, or `Failed` when
    an exception escapes.
  - Pagination follows Python slice semantics, negative indices included.
  - Listings are sorted with Python's string order (`ordering.dfy`).
- **The administrator's user report** (`admin_handlers.dfy`, module
  `AdminHandlers`). It is built by appending strings inside nested loops
  and is proved equal to a specification function of the two tables.

The filesystem below `FILES_ROOT` is an abstract tree (`file_tree.dfy`,
module `FileTree`). Each node records:
- whether `getmtime` succeeds for it;
- for a directory, whether it can be listed.

`make_callback_hash` (sha256 truncated to 16 hex digits) is an
uninterpreted parameter `hash: string -> string`. What `bot.get_chat`
answers during a pass is a parameter `chats` from chat id to the chat's
username and first name; a chat id missing from it is a call that raises. Times are seconds as
`real`, and `int()` on them is truncation toward zero.

Where the code and the design description disagree, the model follows the
code:
- The design says a failure on one subscription does not end the pass. In
  the code the `try` wraps the whole loop (file_watcher.py:163-211), so an
  `os.listdir` that raises on a task path ends the pass. A missing task
  folder is still skipped. `CheckFolderUpdates`, `Pass` and
  `PassStopsAtAbort` model the code.
- The schema declares `user_id` as a foreign key to `users.tg_id`
  (models.py:34). Every writer and reader stores and compares `users.id`
  instead (handlers.py:245, 250, 275, 335; admin_handlers.py:49). The model
  uses `users.id` throughout.

## Model

| member | source | states |
|---|---|---|
| FileTree.ChildNamed | file_watcher.py:181-182 | the entry of a directory with a given name is found exactly when one exists, and it is the first such entry |
| FileTree.ListDir | handlers.py:78 | `os.listdir` succeeds exactly on an existing, listable directory |
| FileTree.DirNames | handlers.py:78 | the `os.path.isdir` filter keeps exactly the directory entries |
| FileTree.ComponentsOfJoin | file_watcher.py:20-22 | `get_full_path`: joining a relative path to the root resolves to the root's components followed by the path's |
| FileTree.TaskPathComponents | handlers.py:230 | the stored folder path of a subscription is `project/stage/task` and resolves to exactly those three components |
| Ordering.Sort | handlers.py:78 | `sorted` returns a permutation of its input whose items are in non-decreasing order under Python's string comparison |
| Ordering.SortedUnique | handlers.py:78 | two sorted permutations of the same names are equal, so the listing is determined by the names alone |
| Paging.PySlice | handlers.py:25 | Python slicing: for non-negative bounds it is the clamped slice, an end of 0 gives nothing, and it never returns more than `end - start` items |
| Paging.Paginate | handlers.py:22-25 | `paginate_items` returns at most 6 items, the list's length, and for page ≥ 1 exactly `items[(page-1)*6 : page*6]` |
| Paging.FirstPagesArePrefix | handlers.py:22-25 | pages 1..k laid end to end are the first `6k` items |
| Paging.PagesReassemble | handlers.py:17 | pages 1..ceil(n/6) laid end to end reproduce the list exactly, with nothing lost or repeated |
| Paging.ForwardIffMorePages | handlers.py:101 | the "forward" condition `page*6 < total` holds exactly when a later page exists and is non-empty |
| Paging.BackIffPrevMoves | handlers.py:99 | the "back" condition `page > 1` holds exactly when `page_prev` moves the page |
| Paging.PagePrev | handlers.py:121 | `page_prev` never yields a page below 1, and moves back by one when it can |
| Paging.NextThenPrev | handlers.py:113-121 | in the project pager forward then back returns to the page, and back then forward does too from page 2 on, while from page 1 it lands on page 2 because back is clamped at 1 |
| Paging.SubsStepsUndo | handlers.py:313-317 | in the subscriptions pager next and prev undo each other in either order, on every page |
| Paging.PageZeroShowsNothing | handlers.py:313-318 | the subscriptions pager has no floor: back from page 1 reaches page 0, which shows no items and no back button |
| Store.UserIndex | handlers.py:232-234 | the lookup by chat id finds a row exactly when one has that chat id |
| Store.FindUser | handlers.py:345-348 | `scalar_one_or_none` of the lookup by chat id returns a user exactly when one exists, and that user has the chat id |
| Store.UpsertSound | handlers.py:345-357 | `update_user_data` keeps ids and chat ids unique, leaves exactly one row for the chat id with the new names, keeps an existing row's id and last name, adds a row only for a new user and touches no other user |
| Store.UserIndexUnique | models.py:17 | with unique chat ids the row found is the only one |
| Store.Database.UpsertUser | handlers.py:345-357 | the upsert on the table object: the new table is `Upsert` of the old one and the returned id is the user's |
| Store.SubscribeOnce | handlers.py:244-252 | get-or-create keeps (user, folder path) unique, leaves the key present, is idempotent, and a new row has no stored time |
| Store.Database.Subscribe | handlers.py:244-252 | the subscription table after get-or-create |
| Store.Database.SubscribeUser | handlers.py:232-252 | the session of task_selected: the user is upserted and then the subscription for that user's id is got-or-created |
| Store.RemoveKey | handlers.py:334-337 | the delete removes exactly the rows with that (user, folder path) and keeps all others |
| Store.RemoveKeyUnique | handlers.py:334-337 | after the delete the keys stay unique and the deleted key is gone |
| Store.RemoveKeyCount | handlers.py:334-337 | the delete removes one row when the key is present and none otherwise |
| Store.Database.Unsubscribe | handlers.py:334-338 | the subscription table after the delete |
| Store.PathsOf | admin_handlers.py:49 | a user's folder list holds exactly the paths of the rows with that `user_id` |
| Store.PathsOfAppend | admin_handlers.py:49 | the folder list keeps table order: the list for two runs of rows is the first run's list followed by the second's |
| Store.Database.SetLastModified | file_watcher.py:196-198 | assigning `last_modified` of one row changes that row's time only |
| Handlers.SortedDirs | handlers.py:185 | a listing is sorted and holds exactly the sub-directory names; it fails exactly when `os.listdir` raises |
| Handlers.BimSpellings | handlers.py:130 | the case-insensitive test drops exactly the eight upper/lower-case spellings of "bim" |
| Handlers.DropBim | handlers.py:130 | the filter keeps exactly the names that are not "bim", each as often as it occurred |
| Handlers.DropBimSorted | handlers.py:128-131 | taking "bim" out of a sorted listing leaves it sorted |
| Handlers.ShowStages | handlers.py:126-133 | `show_stages` is sorted and holds exactly the sub-directories that are not "bim"; it fails exactly when `os.listdir` raises |
| Handlers.StagesAreListingWithoutBim | handlers.py:126-133 | the stage list equals the sorted directory listing with "bim" taken out |
| Handlers.HashMapOf | handlers.py:94-96 | the hash map's keys are exactly the hashes of the listed names, and each key leads to a listed name with that hash |
| Handlers.HashMapLastWins | handlers.py:96 | when two names share a hash, the one listed last is kept |
| Handlers.ButtonSelectsItem | handlers.py:150-153 | a button's callback hash leads back through the stored map to the button's own name, unless another listed name shares the hash |
| Handlers.ItemKeyboard | handlers.py:94-97 | the loop builds one button per name (text and `prefix:hash` data) and the hash map |
| Handlers.PagedNav | handlers.py:99-102 | a paged keyboard offers "back" exactly when `page > 1`, "forward" exactly when `page*6 < total`, and a button for every shown name |
| Handlers.ProjectsPageNav | handlers.py:85-106 | the projects page stores the page it shows (default 1) and offers `page_prev` / `page_next` exactly by those conditions |
| Handlers.SubsPageNav | handlers.py:285-306 | the subscriptions page fails exactly when `page` or `subs` was never stored, and otherwise offers `subs_page_prev` / `subs_page_next` exactly by the page conditions |
| Handlers.ProjectButtonSelects | handlers.py:94-97 | pressing a shown project's button selects that project |
| Handlers.Without | handlers.py:340 | the session list loses every copy of the deleted path and keeps every other path as often as before |
| Handlers.WithoutAppend | handlers.py:340 | the filter works piecewise, so the kept paths stay in their order |
| Handlers.WithoutAbsent | handlers.py:340 | dropping a path that is not listed leaves the list unchanged |
| Handlers.DeleteKeepsListInStep | handlers.py:334-341 | deleting the row and dropping the path from the user's list agree: the list is again the user's paths in table order |
| Handlers.Session.ShowProjectsPage | handlers.py:85-106 | stores the hash map and page of the shown projects page and replies with its keyboard |
| Handlers.Session.CmdSubscribe | handlers.py:71-83 | refreshes the user, fails when the root cannot be listed, says "no projects" without touching the session, or starts the projects menu at page 1 |
| Handlers.Session.PageNext | handlers.py:111-116 | shows the projects page one further |
| Handlers.Session.PagePrev | handlers.py:119-124 | shows the projects page one back, not below 1 |
| Handlers.Session.ShowButtonStages | handlers.py:135-146 | stores the stages' hash map and replies with one button per stage plus "back" |
| Handlers.Session.ProjectSelected | handlers.py:149-164 | an unknown hash gives an alert and changes nothing; a known one is stored as the selected project before the stages are listed, so a failing listing keeps the selection |
| Handlers.Session.ProjectBack | handlers.py:168-170 | shows the projects page again |
| Handlers.Session.StageSelected | handlers.py:175-201 | an unknown hash gives an alert and changes nothing; a known one is stored as the selected stage first; then the missing project, a failing listing, no tasks, or the menu of tasks with its hash map |
| Handlers.Session.StageBack | handlers.py:204-218 | without a selected project an alert and no change; otherwise the stages of the selected project again |
| Handlers.Session.TaskSelected | handlers.py:221-258 | an unknown hash or a missing selection changes nothing; otherwise the user is created or refreshed (username `or ''` on refresh) and the subscription `project/stage/task` is got-or-created |
| Handlers.Session.ShowSubsPage | handlers.py:285-306 | fails on missing `page` / `subs`, otherwise stores the page's hash map and replies with its keyboard |
| Handlers.Session.CmdMySubs | handlers.py:263-283 | refreshes the user, says "no subscriptions" without touching the session when the user has none, otherwise stores the user's paths in table order and shows page 1 |
| Handlers.Session.SubsPaginate | handlers.py:311-320 | moves the page by the callback and shows it |
| Handlers.Session.DeleteSubscription | handlers.py:323-343 | an unknown hash gives an alert and changes nothing; a missing user fails; otherwise exactly that row is deleted and the path leaves the session list before the page is shown again |
| FileWatcher.FolderMtime | file_watcher.py:24-49 | `get_folder_mtime_recursive` equals `Detect`: 0 for a missing path, never negative, at least every readable mtime in the walked tree, and a positive result is one of them |
| FileWatcher.DetectIsLatest | file_watcher.py:29-49 | 0 for a missing path; otherwise the maximum of 0 and the readable mtimes of every listable directory and file below, unreadable entries skipped |
| FileWatcher.Subfolders | file_watcher.py:174-175 | the sub-folder filter keeps exactly the directory entries |
| FileWatcher.SubfoldersAppend | file_watcher.py:174-175 | the filter keeps listing order: filtering two runs of entries gives the first run's directories followed by the second's |
| FileWatcher.Freshest | file_watcher.py:177-188 | `latest_mtime_ts` is never negative and a folder is recorded exactly when it is positive |
| FileWatcher.FreshestData | file_watcher.py:177-188 | the loop over sub-folders equals `Freshest`: no Data time exceeds the result, and a positive result is the Data time of the recorded sub-folder |
| FileWatcher.FreshestIsFirstMax | file_watcher.py:186-188 | the recorded sub-folder is the first in listing order that attains the maximum, because the comparison is strict |
| FileWatcher.Decide | file_watcher.py:170-208 | a time is stored only if it is positive, on initialisation only for a row without a stored time, and on an advance only when the whole-second value strictly grows |
| FileWatcher.DecideFollowsScan | file_watcher.py:170-208 | the decision for every outcome of the scan: missing folder or zero time skips, a failing listing aborts, a first sighting stores the scanned time, a whole-second-newer time is stored with the freshest Data folder's name, and an older or equal one is skipped |
| FileWatcher.FullPathResolves | file_watcher.py:20-22 | `get_full_path` joins FILES_ROOT with the relative folder path, and resolving that join from the disk's top reaches the same entry as resolving the folder path below FILES_ROOT |
| FileWatcher.PassPrefix | file_watcher.py:167-208 | rows are handled in table order: later rows never change the outcome for earlier ones, and an abort among the first rows aborts the whole pass |
| FileWatcher.PassAppliesDecision | file_watcher.py:167-208 | a row reached before any abort ends the pass with its own decision applied, and the pass aborts at that row exactly when its decision is an abort |
| FileWatcher.PassRecordsChanges | file_watcher.py:190-208 | for a row reached before any abort: a positive scanned time is stored on a first sighting (no notification) or when a whole second newer (exactly one notification for that row); otherwise the row is unchanged and gets no notification, and a failing listing ends the pass |
| FileWatcher.PassKeepsKeys | file_watcher.py:163-211 | one pass keeps every row's (user, folder path) in place |
| FileWatcher.Examine | file_watcher.py:168-206 | the checks of one row (exists, listdir, freshest Data folder, zero, first sighting, whole-second comparison) reach exactly the decision `Decide` specifies |
| FileWatcher.CheckSubscription | file_watcher.py:168-208 | the loop body for one row: skip, initialise without notifying, commit then notify, or abort, as `Decide` says; a notification first refreshes its user's names |
| FileWatcher.CheckFolderUpdates | file_watcher.py:163-211 | the pass over the table, in place, equals `Pass` of the old table, and the users table ends as the notifications' refreshes leave it |
| Store.Refreshed | file_watcher.py:100-111 | the refresh changes only the username and first name of the row with that id, to what `get_chat` reports, and changes nothing when the user is missing or `get_chat` raises |
| Store.Database.RefreshUser | file_watcher.py:100-111 | the lookup by primary key followed by the refresh, in place, leaves the table as `Refreshed` describes, keeps the store valid and leaves the subscriptions alone |
| FileWatcher.RefreshedByKeeps | file_watcher.py:106-111 | a pass keeps every user row with its ids and last name, and a user who was sent no notification keeps the row unchanged |
| FileWatcher.RefreshedByNames | file_watcher.py:106-111 | a user who was sent a notification and whose chat can be read ends the pass with the chat's current username and first name |
| FileWatcher.PassStopsAtAbort | file_watcher.py:163-211 | after an exception the remaining rows are left as they were and nothing more is committed or sent |
| FileWatcher.PassNeverRewinds | file_watcher.py:195-207 | a pass changes a row only by storing a positive time that is the first one or a whole second newer |
| FileWatcher.NotifyFollowsCommit | file_watcher.py:202-208 | every notification comes right after the commit of the same subscription's new time |
| FileWatcher.EventsOnlyForRows | file_watcher.py:164-167 | a pass commits and notifies only for rows of the table |
| FileWatcher.DeletedNotScanned | file_watcher.py:164-167 | a deleted subscription gets no commit and no notification in the next pass |
| FileWatcher.DecideSettles | file_watcher.py:190-207 | once a decision is stored, the same tree leaves nothing more to decide for that row |
| FileWatcher.SecondPassQuiet | file_watcher.py:195-207 | a second pass over an unchanged tree stores and sends nothing |
| FileWatcher.NotifiedOnceIffAdvanced | file_watcher.py:195-208 | exactly one notification for a subscription when its stored time moves forward by a whole second, none otherwise (none on first sighting) |
| AdminHandlers.NatToString | admin_handlers.py:52 | `str()` of an id is a non-empty string of decimal digits |
| AdminHandlers.NatToStringRoundTrip | admin_handlers.py:63-64 | printed numbers read back as the number printed, with no leading zero |
| AdminHandlers.Shown | admin_handlers.py:65-66 | a path over 50 characters is shown as its first 47 and "...", so exactly 50 long; shorter paths are unchanged |
| AdminHandlers.NameLineShape | admin_handlers.py:54-60 | the name line is left out exactly when both names are empty, and otherwise joins the present names with one space |
| AdminHandlers.Report | admin_handlers.py:40-42 | the reply is "No users found." exactly when there are no users |
| AdminHandlers.AppendEntries | admin_handlers.py:64-67 | the inner loop appends the folder lines numbered 1..k with long paths shortened |
| AdminHandlers.UsersList | admin_handlers.py:33-73 | the reply built by appending equals `Report` of the two tables |
| AdminHandlers.EntriesOneLineEach | admin_handlers.py:62-67 | one line per listed folder, and the count in the header reads back as that number |
| AdminHandlers.ReportListsOwnedOnce | admin_handlers.py:48-49 | the per-user folder lists of the report together are exactly as long as the number of subscriptions whose `user_id` is a registered user's id |
| AdminHandlers.ReportAround | admin_handlers.py:47-48 | the report is the title followed by the user blocks in table order, so each user's block sits between those of the users before and after it |
| AdminHandlers.SubscriptionListedOnce | admin_handlers.py:48-49 | a subscription whose `user_id` is a registered user's id appears in exactly one user block of the report, that of the only user with that id, among its folder lines |

## Left out

- Telegram and aiogram: routing, keyboard layout (`adjust`), `safe_edit`,
  the "message is not modified" case, toast answers (`callback.answer`
  without an alert), the `/start` greeting and the admin keyboards. A reply
  is modelled as the menu, message or alert the handler ends with.
- Callback data is passed to the handlers already split: `h` is the part
  after the `proj:` / `stage:` / `task:` / `delete_sub:` prefix. Real hashes
  are hexadecimal and never contain the prefix again.
- SQLAlchemy sessions, commits, rollbacks (middleware.py), `created_at` and
  `last_hash`. Tables are sequences in table order. The only constraints
  kept are the unique chat id, the primary key and the unique
  (user_id, folder_path) pair.
- `notify_subscribers`, `get_comment_and_user` and `find_db_file` (message
  formatting and queries of another SQLite database). A notification is a
  `Notified` event. Of `notify_subscribers` the model keeps only the
  refresh of the user's username and first name (file_watcher.py:100-111).
  The early return when no user has the subscription's `user_id` is not
  modelled separately: the event is logged and nothing is refreshed. The index `comment_result[2]` into a 2-tuple
  (file_watcher.py:132) raises inside `notify_subscribers`, where it
  is caught and logged. The model's notification is the call, not its
  success.
- `start_monitoring`'s endless loop, `asyncio.sleep`, cancellation and
  main.py task wiring. One call of `CheckFolderUpdates` is one tick. The
  handlers and the watcher are not modelled running concurrently.
- `datetime.fromtimestamp`, time zones and the display offset. The stored
  time is the detected seconds value itself, without microsecond rounding.
- Filesystem details. The model leaves out symbolic links, `.` and `..`
  path components, and absolute subscription paths; paths are resolved
  below the root. It also leaves out a directory that can be entered but
  not read, because read and search permission are one `listable` flag.
- `str.lower()` beyond ASCII letters. No non-ASCII character lowers to
  "bim", so the filter's result is the same.
- The administrator filter: admin_handlers.py imports `ADMIN_IDS`, which
  config.py does not define (it defines `ADMIN_ID`). Report access is not
  modelled.
- Telegram's message length limit on the report.
- Store.UserIndex, Store.FindUser: the real query is `scalar_one_or_none`,
  which raises on several rows. The model keeps chat ids unique, so that
  case cannot arise.
- Handlers.Session.CmdMySubs: the "no such user" branch (handlers.py:272-274)
  is not modelled as a reply, because the upsert just before it always
  creates the user.
