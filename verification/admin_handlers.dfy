/**
 * The administrator's `/users_list` report (admin_handlers.py): one block per
 * registered user with their names, ids and subscriptions, numbered, long
 * paths shortened to 47 characters and "...".
 */
module AdminHandlers {
  import opened Wrappers
  import opened Store

  // ---------------------------------------------------------------------------
  // Python's str() of an integer

  function DigitChar(d: nat): char
    requires d < 10
  {
    ('0' as int + d) as char
  }

  /** `str(n)` for a non-negative integer: decimal digits, no leading zero. */
  function NatToString(n: nat): (r: string)
    ensures |r| >= 1
    ensures forall i :: 0 <= i < |r| ==> '0' <= r[i] <= '9'
  {
    if n < 10 then [DigitChar(n)] else NatToString(n / 10) + [DigitChar(n % 10)]
  }

  /** `str(i)`: a minus sign before the digits of a negative number. */
  function IntToString(i: int): string {
    if i < 0 then "-" + NatToString(-i) else NatToString(i)
  }

  /** The number a string of decimal digits denotes (`int(s)`). */
  function DecimalValue(s: string): nat {
    if s == [] then 0
    else DecimalValue(s[..|s| - 1]) * 10 + (if '0' <= s[|s| - 1] <= '9' then s[|s| - 1] as int - '0' as int else 0)
  }

  /** The numbers in the report read back as the numbers printed, without a leading zero. */
  lemma {:induction false} NatToStringRoundTrip(n: nat)
    ensures DecimalValue(NatToString(n)) == n
    ensures NatToString(n)[0] == '0' ==> n == 0
  {
    if n >= 10 {
      var s := NatToString(n / 10);
      NatToStringRoundTrip(n / 10);
      assert (s + [DigitChar(n % 10)])[..|s|] == s;
    }
  }

  // ---------------------------------------------------------------------------
  // The pieces of a user block

  /** Python truthiness of a nullable string column: present and non-empty. */
  predicate Truthy(s: Option<string>) {
    s.Some? && s.value != ""
  }

  /** A folder path as listed: longer than 50 characters, its first 47 and "...". */
  function Shown(folder: string): (r: string)
    ensures |r| == if |folder| > 50 then 50 else |folder|
    ensures r == folder <==> |folder| <= 50
    ensures |folder| > 50 ==> r[..47] == folder[..47] && r[47..] == "..."
  {
    if |folder| > 50 then folder[..47] + "..." else folder
  }

  /** `' '.join(parts)`. */
  function JoinSpace(parts: seq<string>): string {
    if parts == [] then ""
    else if |parts| == 1 then parts[0]
    else parts[0] + " " + JoinSpace(parts[1..])
  }

  /** `name_parts`: the first name, then the last name, each only when truthy. */
  function NameParts(u: User): seq<string> {
    (if Truthy(u.firstName) then [u.firstName.value] else [])
    + (if Truthy(u.lastName) then [u.lastName.value] else [])
  }

  function NameLineOf(parts: seq<string>): string {
    "📝 Имя: " + JoinSpace(parts) + "\n"
  }

  function NameLine(u: User): string {
    if Truthy(u.firstName) || Truthy(u.lastName) then NameLineOf(NameParts(u)) else ""
  }

  /** The name line is left out exactly when both names are empty, and otherwise joins the present names with one space. */
  lemma NameLineShape(u: User)
    ensures NameLine(u) == "" <==> !Truthy(u.firstName) && !Truthy(u.lastName)
    ensures Truthy(u.firstName) && Truthy(u.lastName) ==>
      NameLine(u) == "📝 Имя: " + u.firstName.value + " " + u.lastName.value + "\n"
    ensures Truthy(u.firstName) != Truthy(u.lastName) ==>
      NameLine(u) == "📝 Имя: " + (if Truthy(u.firstName) then u.firstName.value else u.lastName.value) + "\n"
  {
    var parts := NameParts(u);
    if Truthy(u.firstName) && Truthy(u.lastName) {
      assert parts == [u.firstName.value, u.lastName.value];
      assert parts[1..] == [u.lastName.value];
      assert JoinSpace(parts) == u.firstName.value + " " + u.lastName.value;
    }
  }

  function UsernameLine(u: User): string {
    "👤 <b>Пользователь:</b> @" + (if Truthy(u.username) then u.username.value else "без username") + "\n"
  }

  function IdLine(u: User): string {
    "🆔 ID: " + NatToString(u.id) + " | TG ID: " + IntToString(u.tgId) + "\n"
  }

  function EntryText(number: nat, shown: string): string {
    "   " + NatToString(number) + ". 📁 " + shown + "\n"
  }

  function EntryLine(number: nat, folder: string): string {
    EntryText(number, Shown(folder))
  }

  /** The numbered folder lines, 1 to |folders|, in the order given. */
  function Entries(folders: seq<string>): string {
    if folders == [] then ""
    else Entries(folders[..|folders| - 1]) + EntryLine(|folders|, folders[|folders| - 1])
  }

  function SubsHeader(count: nat): string {
    "📂 <b>Подписки (" + NatToString(count) + "):</b>\n"
  }

  const NoSubsLine := "📂 <i>Нет активных подписок</i>\n"
  const Separator := "┄┄┄┄┄┄┄┄┄┄┄┄┄┄┄┄┄┄┄┄┄┄┄┄┄┄\n"

  function FolderLines(folders: seq<string>): string {
    if folders == [] then NoSubsLine else SubsHeader(|folders|) + Entries(folders)
  }

  /** One user's block: username, ids, optional name line, subscriptions, separator. */
  function UserBlock(u: User, subs: seq<Subscription>): string {
    UsernameLine(u) + IdLine(u) + NameLine(u) + FolderLines(PathsOf(subs, u.id)) + Separator
  }

  function Blocks(users: seq<User>, subs: seq<Subscription>): string {
    if users == [] then ""
    else Blocks(users[..|users| - 1], subs) + UserBlock(users[|users| - 1], subs)
  }

  const ReportTitle := "Registered Users:\n\n"

  /** The reply of users_list_handler. */
  function Report(users: seq<User>, subs: seq<Subscription>): (r: string)
    ensures r == "No users found." <==> users == []
  {
    if users == [] then "No users found."
    else
      var r := ReportTitle + Blocks(users, subs);
      assert r[0] == 'R';
      r
  }

  // ---------------------------------------------------------------------------
  // The handler

  /**
   * users_list_handler: `users` and `subs` are the two selects, in table
   * order; the reply is built by appending piece after piece.
   */
  method UsersList(users: seq<User>, subs: seq<Subscription>) returns (reply: string)
    ensures reply == Report(users, subs)
  {
    if users == [] {
      return "No users found.";
    }
    var response := ReportTitle;
    var k := 0;
    while k < |users|
      invariant 0 <= k <= |users|
      invariant response == ReportTitle + Blocks(users[..k], subs)
    {
      var user := users[k];
      response := AppendUserBlock(response, user, subs);
      ReportStep(users, k, subs);
      k := k + 1;
    }
    ReportIsTitleAndBlocks(users, subs);
    reply := response;
  }

  lemma ReportIsTitleAndBlocks(users: seq<User>, subs: seq<Subscription>)
    requires users != []
    ensures Report(users, subs) == ReportTitle + Blocks(users[..|users|], subs)
  {
    assert users[..|users|] == users;
  }

  /** The body of the outer loop of users_list_handler: appends one user's block. */
  method AppendUserBlock(response: string, user: User, subs: seq<Subscription>) returns (r: string)
    ensures r == response + UserBlock(user, subs)
  {
    var folderNames := PathsOf(subs, user.id);
    r := response + UsernameLine(user);
    r := r + IdLine(user);
    r := AppendNameLine(r, user);
    r := AppendFolderLines(r, folderNames);
    r := r + Separator;
    BlockAssoc(response, UsernameLine(user), IdLine(user), NameLine(user), FolderLines(folderNames), Separator);
  }

  /** The optional name line: the present names joined by a space, or nothing. */
  method AppendNameLine(response: string, user: User) returns (r: string)
    ensures r == response + NameLine(user)
  {
    r := response;
    if Truthy(user.firstName) || Truthy(user.lastName) {
      var nameParts := [];
      if Truthy(user.firstName) {
        nameParts := nameParts + [user.firstName.value];
      }
      if Truthy(user.lastName) {
        nameParts := nameParts + [user.lastName.value];
      }
      assert nameParts == NameParts(user);
      r := r + NameLineOf(nameParts);
    } else {
      assert r == r + NameLine(user);
    }
  }

  /** The subscription part of a block: the header and the entries, or the "none" line. */
  method AppendFolderLines(response: string, folderNames: seq<string>) returns (r: string)
    ensures r == response + FolderLines(folderNames)
  {
    if folderNames != [] {
      r := response + SubsHeader(|folderNames|);
      r := AppendEntries(r, folderNames);
      Assoc(response, SubsHeader(|folderNames|), Entries(folderNames));
    } else {
      r := response + NoSubsLine;
    }
  }

  /** The inner loop of users_list_handler: appends the numbered, shortened folder lines. */
  method AppendEntries(response: string, folderNames: seq<string>) returns (r: string)
    ensures r == response + Entries(folderNames)
  {
    r := response;
    var i := 0;
    while i < |folderNames|
      invariant 0 <= i <= |folderNames|
      invariant r == response + Entries(folderNames[..i])
    {
      var folder := folderNames[i];
      if |folder| > 50 {
        folder := folder[..47] + "...";
      }
      assert folder == Shown(folderNames[i]);
      EntriesSnoc(folderNames, i);
      Assoc(response, Entries(folderNames[..i]), EntryLine(i + 1, folderNames[i]));
      r := r + EntryText(i + 1, folder);
      i := i + 1;
    }
    assert folderNames[..|folderNames|] == folderNames;
  }

  lemma EntriesSnoc(folders: seq<string>, i: nat)
    requires i < |folders|
    ensures Entries(folders[..i + 1]) == Entries(folders[..i]) + EntryLine(i + 1, folders[i])
  {
    assert folders[..i + 1][..i] == folders[..i];
  }

  /** One more user block extends the report built so far. */
  lemma ReportStep(users: seq<User>, k: nat, subs: seq<Subscription>)
    requires k < |users|
    ensures ReportTitle + Blocks(users[..k + 1], subs) == ReportTitle + Blocks(users[..k], subs) + UserBlock(users[k], subs)
  {
    BlocksSnoc(users, k, subs);
    Assoc(ReportTitle, Blocks(users[..k], subs), UserBlock(users[k], subs));
  }

  lemma BlocksSnoc(users: seq<User>, k: nat, subs: seq<Subscription>)
    requires k < |users|
    ensures Blocks(users[..k + 1], subs) == Blocks(users[..k], subs) + UserBlock(users[k], subs)
  {
    assert users[..k + 1][..k] == users[..k];
  }

  lemma Assoc(a: string, b: string, c: string)
    ensures a + b + c == a + (b + c)
  {
  }

  lemma BlockAssoc(before: string, u: string, i: string, n: string, f: string, s: string)
    ensures before + u + i + n + f + s == before + (u + i + n + f + s)
  {
  }

  // ---------------------------------------------------------------------------
  // Properties of the report

  /** Number of newline characters. */
  function Newlines(s: string): nat {
    if s == [] then 0 else Newlines(s[..|s| - 1]) + (if s[|s| - 1] == '\n' then 1 else 0)
  }

  lemma {:induction false} NewlinesAppend(a: string, b: string)
    ensures Newlines(a + b) == Newlines(a) + Newlines(b)
    decreases |b|
  {
    if b == [] {
      assert a + b == a;
    } else {
      assert (a + b)[..|a + b| - 1] == a + b[..|b| - 1];
      NewlinesAppend(a, b[..|b| - 1]);
    }
  }

  lemma {:induction false} NewlinesNone(s: string)
    requires '\n' !in s
    ensures Newlines(s) == 0
  {
    if s != [] {
      assert s[..|s| - 1] + [s[|s| - 1]] == s;
      NewlinesNone(s[..|s| - 1]);
    }
  }

  /**
   * A user's subscription list is one line per folder, and the count in the
   * header reads back as that number of lines (folder paths hold no line
   * breaks).
   */
  lemma {:induction false} EntriesOneLineEach(folders: seq<string>)
    requires forall i :: 0 <= i < |folders| ==> '\n' !in folders[i]
    ensures Newlines(Entries(folders)) == |folders|
    ensures DecimalValue(NatToString(|folders|)) == |folders|
  {
    NatToStringRoundTrip(|folders|);
    if folders != [] {
      var init := folders[..|folders| - 1];
      var last := folders[|folders| - 1];
      EntriesOneLineEach(init);
      var n := |folders|;
      assert '\n' !in Shown(last) by {
        if |last| > 50 {
          assert forall c :: c in last[..47] ==> c in last;
        }
      }
      var body := "   " + NatToString(n) + ". 📁 " + Shown(last);
      assert '\n' !in body;
      NewlinesNone(body);
      NewlinesAppend(body, "\n");
      assert EntryLine(n, last) == body + "\n";
      NewlinesAppend(Entries(init), EntryLine(n, last));
    }
  }

  predicate HasId(users: seq<User>, id: nat) {
    exists i :: 0 <= i < |users| && users[i].id == id
  }

  /** The total length of the folder lists the report shows for `users`, one list per user block. */
  function Listed(users: seq<User>, subs: seq<Subscription>): nat {
    if users == [] then 0 else Listed(users[..|users| - 1], subs) + |PathsOf(subs, users[|users| - 1].id)|
  }

  /** How many subscriptions belong, by `user_id`, to one of `users`. */
  function Owned(subs: seq<Subscription>, users: seq<User>): nat {
    if subs == [] then 0 else (if HasId(users, subs[0].userId) then 1 else 0) + Owned(subs[1..], users)
  }

  /** How many subscriptions carry `user_id == id`. */
  function CountId(subs: seq<Subscription>, id: nat): nat {
    if subs == [] then 0 else (if subs[0].userId == id then 1 else 0) + CountId(subs[1..], id)
  }

  lemma {:induction false} PathsCount(subs: seq<Subscription>, id: nat)
    ensures |PathsOf(subs, id)| == CountId(subs, id)
  {
    if subs != [] {
      PathsCount(subs[1..], id);
    }
  }

  lemma {:induction false} OwnedSnoc(subs: seq<Subscription>, init: seq<User>, last: User)
    requires !HasId(init, last.id)
    ensures Owned(subs, init + [last]) == Owned(subs, init) + CountId(subs, last.id)
  {
    if subs != [] {
      OwnedSnoc(subs[1..], init, last);
      var users := init + [last];
      var id := subs[0].userId;
      assert HasId(users, id) <==> HasId(init, id) || last.id == id by {
        if HasId(users, id) {
          var i :| 0 <= i < |users| && users[i].id == id;
          if i < |init| { assert init[i] == users[i]; }
        }
        if HasId(init, id) {
          var i :| 0 <= i < |init| && init[i].id == id;
          assert users[i] == init[i];
        }
        assert users[|init|] == last;
      }
    }
  }

  /**
   * Every subscription whose `user_id` is a registered user's id is listed
   * exactly once over the whole report, and no other subscription is.
   */
  lemma {:induction false} ReportListsOwnedOnce(users: seq<User>, subs: seq<Subscription>)
    requires UniqueUsers(users)
    ensures Listed(users, subs) == Owned(subs, users)
  {
    if users == [] {
      assert Owned(subs, users) == 0 by { OwnedEmpty(subs, users); }
    } else {
      var init := users[..|users| - 1];
      var last := users[|users| - 1];
      assert UniqueUsers(init) by {
        forall i, j | 0 <= i < j < |init| ensures init[i].tgId != init[j].tgId && init[i].id != init[j].id {
          assert init[i] == users[i] && init[j] == users[j];
        }
      }
      ReportListsOwnedOnce(init, subs);
      assert !HasId(init, last.id);
      assert users == init + [last];
      OwnedSnoc(subs, init, last);
      PathsCount(subs, last.id);
    }
  }

  lemma {:induction false} BlocksAppend(a: seq<User>, b: seq<User>, subs: seq<Subscription>)
    ensures Blocks(a + b, subs) == Blocks(a, subs) + Blocks(b, subs)
    decreases |b|
  {
    if b == [] {
      assert a + b == a;
    } else {
      var init := b[..|b| - 1];
      var last := b[|b| - 1];
      assert (a + b)[..|a + b| - 1] == a + init;
      assert (a + b)[|a + b| - 1] == last;
      assert Blocks(a + b, subs) == Blocks(a + init, subs) + UserBlock(last, subs);
      BlocksAppend(a, init, subs);
      assert Blocks(b, subs) == Blocks(init, subs) + UserBlock(last, subs);
      Assoc(Blocks(a, subs), Blocks(init, subs), UserBlock(last, subs));
    }
  }

  /** The report around the block of the user at index `k`. */
  lemma ReportAround(users: seq<User>, subs: seq<Subscription>, k: nat)
    requires k < |users|
    ensures Report(users, subs) == ReportTitle + Blocks(users[..k], subs) + UserBlock(users[k], subs) + Blocks(users[k + 1..], subs)
  {
    assert users[..k + 1] + users[k + 1..] == users;
    BlocksAppend(users[..k + 1], users[k + 1..], subs);
    BlocksSnoc(users, k, subs);
    Assoc(ReportTitle, Blocks(users[..k], subs) + UserBlock(users[k], subs), Blocks(users[k + 1..], subs));
    Assoc(ReportTitle, Blocks(users[..k], subs), UserBlock(users[k], subs));
  }

  /**
   * Per subscription: one whose `user_id` is a registered user's id is shown
   * in the report inside exactly one user block, that of the only user with
   * that id, among the folder lines of that block.
   */
  lemma SubscriptionListedOnce(users: seq<User>, subs: seq<Subscription>, i: nat) returns (k: nat)
    requires UniqueUsers(users) && i < |subs| && HasId(users, subs[i].userId)
    ensures k < |users| && users[k].id == subs[i].userId
    ensures forall j :: 0 <= j < |users| && users[j].id == subs[i].userId ==> j == k
    ensures subs[i].folderPath in PathsOf(subs, users[k].id)
    ensures Report(users, subs) == ReportTitle + Blocks(users[..k], subs) + UserBlock(users[k], subs) + Blocks(users[k + 1..], subs)
  {
    k :| 0 <= k < |users| && users[k].id == subs[i].userId;
    assert HasKey(subs, users[k].id, subs[i].folderPath);
    ReportAround(users, subs, k);
  }

  lemma {:induction false} OwnedEmpty(subs: seq<Subscription>, users: seq<User>)
    requires users == []
    ensures Owned(subs, users) == 0
  {
    if subs != [] {
      OwnedEmpty(subs[1..], users);
    }
  }
}
