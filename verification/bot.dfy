/**
 * The Telegram side of the Node server: the admin list read from
 * `ADMIN_IDS`, `isAdmin`, `formatUserLine`, the `/users` listing, the
 * `/broadcast` payload, and the dispatch of `handleTelegramUpdate`. Each
 * Telegram API call becomes an outgoing `Send`; the order in which the
 * user map enumerates its keys is a parameter.
 */
module Bot {
  import opened Wrappers
  import opened Text
  import opened Sorting
  import opened Visitors

  // ---------------------------------------------------------------------------
  // Admin ids

  /** A JavaScript number as far as ids go: an integer or NaN. */
  datatype JsNumber = Num(value: int) | NaN

  /** `Number(s)` for a trimmed string: an optionally signed run of decimal digits, else NaN. */
  function ToNumber(s: string): JsNumber
  {
    if |s| > 0 && AllDigits(s) then Num(DigitsValue(s))
    else if |s| > 1 && (s[0] == '-' || s[0] == '+') && AllDigits(s[1..]) then
      Num(if s[0] == '-' then -(DigitsValue(s[1..]) as int) else DigitsValue(s[1..]))
    else NaN
  }

  /** `Number(String(n))` is `n`. */
  lemma ToNumberOfIntToString(n: int)
    ensures ToNumber(IntToString(n)) == Num(n)
  {
    if n >= 0 {
      DigitsValueOfNatToString(n);
    } else {
      var s := IntToString(n);
      assert s[1..] == NatToString(-n);
      assert !IsDigit(s[0]);
      DigitsValueOfNatToString(-n);
    }
  }

  function JsTrim(s: string): string
  {
    Trim(s, IsJsWhitespace)
  }

  /** Each string trimmed. */
  function TrimAll(xs: seq<string>): (r: seq<string>)
    ensures |r| == |xs|
    ensures forall i | 0 <= i < |xs| :: r[i] == JsTrim(xs[i])
  {
    seq(|xs|, i requires 0 <= i < |xs| => JsTrim(xs[i]))
  }

  /** `(ADMIN_IDS || "").split(",").map(trim).filter(Boolean)`. */
  function AdminEntries(env: Option<string>): (r: seq<string>)
    ensures forall j | 0 <= j < |r| :: r[j] != "" && ',' !in r[j] && JsTrim(r[j]) == r[j]
    ensures r == NonEmpty(TrimAll(Split(env.GetOr(""), ',')))
  {
    var parts := Split(env.GetOr(""), ',');
    var trimmed := TrimAll(parts);
    var r := NonEmpty(trimmed);
    assert forall j | 0 <= j < |r| :: ',' !in r[j] && JsTrim(r[j]) == r[j] by {
      forall j | 0 <= j < |r|
        ensures ',' !in r[j] && JsTrim(r[j]) == r[j]
      {
        var i :| 0 <= i < |trimmed| && trimmed[i] == r[j];
        TrimKeepsOut(parts[i], IsJsWhitespace, ',');
        TrimIdempotent(parts[i], IsJsWhitespace);
      }
    }
    r
  }

  /** Comma-joined pieces give their trimmed, non-empty pieces, in order. */
  lemma AdminEntriesOfJoin(pieces: seq<string>)
    requires |pieces| >= 1
    requires forall i | 0 <= i < |pieces| :: ',' !in pieces[i]
    ensures AdminEntries(Some(Join(pieces, ','))) == NonEmpty(TrimAll(pieces))
  {
    SplitJoin(pieces, ',');
  }

  /** The numbers the strings stand for. */
  function NumbersOf(entries: seq<string>): set<JsNumber>
  {
    set t | t in entries :: ToNumber(t)
  }

  /** The set `ADMIN_IDS`: each entry converted with `Number`. */
  function AdminIds(env: Option<string>): set<JsNumber>
  {
    NumbersOf(AdminEntries(env))
  }

  lemma IntToStringShape(n: int)
    ensures var s := IntToString(n);
      && (forall i | 0 <= i < |s| :: IsDigit(s[i]) || (i == 0 && s[i] == '-'))
      && IsDigit(s[|s| - 1])
  {
    if n < 0 {
      var s := IntToString(n);
      assert s[1..] == NatToString(-n);
      assert forall i | 1 <= i < |s| :: s[i] == NatToString(-n)[i - 1];
    }
  }

  /** The decimal spellings of `ns`. */
  function Decimals(ns: seq<int>): (r: seq<string>)
    ensures |r| == |ns|
  {
    seq(|ns|, i requires 0 <= i < |ns| => IntToString(ns[i]))
  }

  /** Decimal ids joined by commas come back, in order, as the entries of the list. */
  lemma AdminEntriesOfDecimals(ns: seq<int>)
    requires |ns| >= 1
    ensures AdminEntries(Some(Join(Decimals(ns), ','))) == Decimals(ns)
  {
    var strs := Decimals(ns);
    forall k | 0 <= k < |strs|
      ensures ',' !in strs[k] && JsTrim(strs[k]) == strs[k] && strs[k] != ""
    {
      IntToStringShape(ns[k]);
      TrimNoop(strs[k], IsJsWhitespace);
    }
    SplitJoin(strs, ',');
    assert TrimAll(strs) == strs;
  }

  lemma NumbersOfDecimals(ns: seq<int>)
    ensures NumbersOf(Decimals(ns)) == set n | n in ns :: Num(n)
  {
    var strs := Decimals(ns);
    forall x
      ensures x in NumbersOf(strs) <==> x in set n | n in ns :: Num(n)
    {
      if x in NumbersOf(strs) {
        var t :| t in strs && x == ToNumber(t);
        var k :| 0 <= k < |strs| && strs[k] == t;
        ToNumberOfIntToString(ns[k]);
        assert ns[k] in ns;
      }
      if x in set n | n in ns :: Num(n) {
        var n :| n in ns && x == Num(n);
        var k :| 0 <= k < |ns| && ns[k] == n;
        ToNumberOfIntToString(ns[k]);
        assert strs[k] in strs;
      }
    }
  }

  /**
   * Ids written as decimal integers separated by commas are read back as
   * exactly those ids.
   */
  lemma AdminIdsOfDecimals(ns: seq<int>)
    requires |ns| >= 1
    ensures AdminIds(Some(Join(Decimals(ns), ','))) == set n | n in ns :: Num(n)
  {
    AdminEntriesOfDecimals(ns);
    NumbersOfDecimals(ns);
  }

  /**
   * `isAdmin(from?.id)` as written: `Number(undefined)` is NaN, and
   * `Set.prototype.has` finds NaN in a set holding NaN, so a message
   * without a sender counts as an admin's once any entry of `ADMIN_IDS`
   * is not a number.
   */
  function IsAdminAsWritten(admins: set<JsNumber>, sender: Option<int>): (r: bool)
    ensures sender.Some? ==> (r <==> Num(sender.value) in admins)
    ensures sender.None? ==> (r <==> NaN in admins)
  {
    (if sender.Some? then Num(sender.value) else NaN) in admins
  }

  /** `ADMIN_IDS` holding a username instead of a numeric id. */
  const UsernameEntry: string := "@alice"

  lemma UsernameEntryIsNaN()
    ensures AdminEntries(Some(UsernameEntry)) == [UsernameEntry]
    ensures ToNumber(UsernameEntry) == NaN
  {
    assert ',' !in UsernameEntry;
    TrimNoop(UsernameEntry, IsJsWhitespace);
    assert TrimAll([UsernameEntry]) == [UsernameEntry];
    assert !IsDigit(UsernameEntry[0]);
  }

  /** A username in `ADMIN_IDS` lets a sender-less `/users` or `/broadcast` through. */
  lemma AnonymousAdminAsWritten()
    ensures NaN in AdminIds(Some(UsernameEntry))
    ensures IsAdminAsWritten(AdminIds(Some(UsernameEntry)), None)
  {
    UsernameEntryIsNaN();
    assert UsernameEntry in AdminEntries(Some(UsernameEntry));
  }

  /** The admin check with the evident intent: only a sender whose id is listed. */
  function IsAdmin(admins: set<JsNumber>, sender: Option<int>): (r: bool)
    ensures r <==> sender.Some? && Num(sender.value) in admins
    ensures sender.Some? ==> r == IsAdminAsWritten(admins, sender)
  {
    sender.Some? && Num(sender.value) in admins
  }

  // ---------------------------------------------------------------------------
  // The /users listing

  /** `formatUserLine`: `"<id> <first last> @<username>"`, trimmed, missing parts left out. */
  function FormatUserLine(u: UserRecord): string
  {
    var names := NonEmpty((if u.firstName.Some? then [u.firstName.value] else [])
                          + (if u.lastName.Some? then [u.lastName.value] else []));
    var handle := if Truthy(u.username) then "@" + u.username.value else "";
    JsTrim(IdKey(u.userId) + " " + Join(names, ' ') + " " + handle)
  }

  /** A user with an id, both names and a username is listed as all four, separated by spaces. */
  lemma FormatFullUser(u: UserRecord)
    requires Truthy(u.firstName) && Truthy(u.lastName) && Truthy(u.username)
    requires IdKey(u.userId) != "" && !IsJsWhitespace(IdKey(u.userId)[0])
    requires !IsJsWhitespace(u.username.value[|u.username.value| - 1])
    ensures FormatUserLine(u)
      == IdKey(u.userId) + " " + u.firstName.value + " " + u.lastName.value + " @" + u.username.value
  {
    var names := [u.firstName.value, u.lastName.value];
    assert NonEmpty([u.firstName.value] + [u.lastName.value]) == names;
    JoinCons(names, ' ');
    assert Join(names, ' ') == u.firstName.value + " " + u.lastName.value;
    var line := IdKey(u.userId) + " " + Join(names, ' ') + " " + ("@" + u.username.value);
    assert line[0] == IdKey(u.userId)[0];
    assert line[|line| - 1] == u.username.value[|u.username.value| - 1];
    TrimNoop(line, IsJsWhitespace);
  }

  /** An `@` shows up only with a username, unless the id or a name holds one. */
  lemma AtOnlyWithUsername(u: UserRecord)
    requires !Truthy(u.username)
    requires '@' !in IdKey(u.userId)
    requires u.firstName.Some? ==> '@' !in u.firstName.value
    requires u.lastName.Some? ==> '@' !in u.lastName.value
    ensures '@' !in FormatUserLine(u)
  {
    var parts := (if u.firstName.Some? then [u.firstName.value] else [])
                 + (if u.lastName.Some? then [u.lastName.value] else []);
    var names := NonEmpty(parts);
    assert forall j | 0 <= j < |parts| :: '@' !in parts[j];
    JoinKeepsOut(names, ' ', '@');
    var line := IdKey(u.userId) + " " + Join(names, ' ') + " " + "";
    TrimKeepsOut(line, IsJsWhitespace, '@');
  }

  lemma {:induction false} JoinKeepsOut(xs: seq<string>, sep: char, c: char)
    requires c != sep && forall j | 0 <= j < |xs| :: c !in xs[j]
    ensures c !in Join(xs, sep)
  {
    if |xs| >= 2 {
      JoinKeepsOut(xs[1..], sep, c);
    }
  }

  /** How many users `/users` shows at most. */
  const ListLimit: nat := 50

  function Min(a: int, b: int): int
  {
    if a <= b then a else b
  }

  function NegVisits(u: UserRecord): int
  {
    -(u.visits as int)
  }

  /**
   * The users `/users` shows: sorted by visits, most first, and cut to the
   * first 50.
   */
  function UsersListing(list: seq<UserRecord>): (r: seq<UserRecord>)
    ensures |r| == Min(|list|, ListLimit)
    ensures forall i, j | 0 <= i < j < |r| :: r[i].visits >= r[j].visits
    ensures multiset(r) <= multiset(list)
    ensures forall i, y | 0 <= i < |r| && multiset(r)[y] < multiset(list)[y] :: r[i].visits >= y.visits
  {
    var sorted := SortBy(list, NegVisits);
    var top := sorted[..Min(|list|, ListLimit)];
    TopByVisits(sorted, list, top);
    top
  }

  lemma TopByVisits(sorted: seq<UserRecord>, list: seq<UserRecord>, top: seq<UserRecord>)
    requires SortedBy(sorted, NegVisits) && multiset(sorted) == multiset(list)
    requires |top| <= |sorted| && top == sorted[..|top|]
    ensures forall i, j | 0 <= i < j < |top| :: top[i].visits >= top[j].visits
    ensures multiset(top) <= multiset(list)
    ensures forall i, y | 0 <= i < |top| && multiset(top)[y] < multiset(list)[y] :: top[i].visits >= y.visits
  {
    var n := |top|;
    forall i, j | 0 <= i < j < n
      ensures top[i].visits >= top[j].visits
    {
      assert top[i] == sorted[i] && top[j] == sorted[j];
      assert NegVisits(sorted[i]) <= NegVisits(sorted[j]);
    }
    assert sorted == top + sorted[n..];
    PrefixBeforeRest(sorted, n, NegVisits);
    forall i, y | 0 <= i < n && multiset(top)[y] < multiset(list)[y]
      ensures top[i].visits >= y.visits
    {
      assert top[i] == sorted[i];
      assert NegVisits(sorted[i]) <= NegVisits(y);
    }
  }

  const UsersHeader: string := "Пользователи: "
  const ShownFirst: string := "Показаны первые 50."
  const NobodyYet: string := "Пока пусто."

  /** The users' lines, one per user, joined by newlines. */
  function Lines(users: seq<UserRecord>): string
  {
    Join(seq(|users|, i requires 0 <= i < |users| => FormatUserLine(users[i])), '\n')
  }

  /**
   * The text of the `/users` reply: the total, then the lines of the users
   * `UsersListing` picks and the "first 50" note; or the "empty" notice
   * when those lines are empty.
   */
  function UsersReply(list: seq<UserRecord>): (r: string)
    ensures StartsWith(r, UsersHeader + IntToString(|list|) + "\n")
    ensures |list| == 0 ==> r == UsersHeader + IntToString(0) + "\n" + NobodyYet
    ensures Lines(UsersListing(list)) != "" ==>
      r == UsersHeader + IntToString(|list|) + "\n" + ("\n" + Lines(UsersListing(list)) + "\n\n" + ShownFirst)
    ensures Lines(UsersListing(list)) == "" ==> r == UsersHeader + IntToString(|list|) + "\n" + NobodyYet
  {
    var sample := Lines(UsersListing(list));
    var head := UsersHeader + IntToString(|list|) + "\n";
    var rest := if sample != "" then "\n" + sample + "\n\n" + ShownFirst else NobodyYet;
    assert (head + rest)[..|head|] == head;
    head + rest
  }

  // ---------------------------------------------------------------------------
  // /broadcast

  /** `s.replace(pattern, "")`: the first occurrence removed. */
  function ReplaceFirst(s: string, pattern: string): (r: string)
    requires pattern != ""
    ensures StartsWith(s, pattern) ==> r == s[|pattern|..]
    ensures |r| <= |s|
    decreases |s|
  {
    if StartsWith(s, pattern) then s[|pattern|..]
    else if |s| == 0 then s
    else [s[0]] + ReplaceFirst(s[1..], pattern)
  }

  const BroadcastCommand: string := "/broadcast"

  /** `text.replace("/broadcast", "").trim()`. */
  function BroadcastPayload(text: string): (r: string)
    ensures StartsWith(text, BroadcastCommand) ==> r == JsTrim(text[|BroadcastCommand|..])
  {
    JsTrim(ReplaceFirst(text, BroadcastCommand))
  }

  // ---------------------------------------------------------------------------
  // Dispatch

  /** Where a message goes: the chat of the update, or a user key from the map. */
  datatype Chat = ChatId(id: int) | UserKey(key: string)

  datatype Keyboard = WebAppButton(url: string) | NoUrlButton

  datatype Send = Send(to: Chat, text: string, keyboard: Option<Keyboard>)

  datatype Sender = Sender(
    id: Option<int>, username: Option<string>, firstName: Option<string>,
    lastName: Option<string>, languageCode: Option<string>)

  datatype Message = Message(from: Option<Sender>, chatId: Option<int>, text: Option<string>)

  datatype Update = Update(message: Option<Message>)

  const OpenCalculator: string := "Откройте калькулятор по кнопке ниже."
  const NoAccess: string := "Нет доступа."
  const BroadcastUsage: string := "Использование: /broadcast Текст рассылки"
  const BroadcastStarted: string := "Рассылка начата. Получателей: "
  const BroadcastDone: string := "Рассылка завершена."

  /** `makeWebAppKeyboard`: a web-app button when the URL is set, else a placeholder. */
  function WebAppKeyboard(webappUrl: string): (k: Keyboard)
    ensures k.WebAppButton? <==> webappUrl != ""
    ensures k.WebAppButton? ==> k.url == webappUrl
  {
    if webappUrl == "" then NoUrlButton else WebAppButton(webappUrl)
  }

  /** `handleBroadcast`: usage only for an empty text, else one message per user key between two reports. */
  function Broadcast(chat: int, text: string, keys: seq<string>): (r: seq<Send>)
    ensures text == "" ==> r == [Send(ChatId(chat), BroadcastUsage, None)]
    ensures text != "" ==>
      && |r| == |keys| + 2
      && r[0] == Send(ChatId(chat), BroadcastStarted + IntToString(|keys|), None)
      && (forall i | 0 <= i < |keys| :: r[i + 1] == Send(UserKey(keys[i]), text, None))
      && r[|r| - 1] == Send(ChatId(chat), BroadcastDone, None)
  {
    if text == "" then [Send(ChatId(chat), BroadcastUsage, None)]
    else
      [Send(ChatId(chat), BroadcastStarted + IntToString(|keys|), None)]
      + seq(|keys|, i requires 0 <= i < |keys| => Send(UserKey(keys[i]), text, None))
      + [Send(ChatId(chat), BroadcastDone, None)]
  }

  /** `order` enumerates the keys of `users`: each key exactly once. */
  predicate Enumerates(users: Users, order: seq<string>)
  {
    && Distinct(order)
    && (forall k | k in order :: k in users)
    && (forall k | k in users :: k in order)
  }

  /** A sequence without repeats has as many distinct elements as entries. */
  lemma {:induction false} DistinctCard(xs: seq<string>)
    requires Distinct(xs)
    ensures |set k | k in xs| == |xs|
  {
    if |xs| > 0 {
      var t := xs[1..];
      forall i, j | 0 <= i < j < |t|
        ensures t[i] != t[j]
      {
        assert t[i] == xs[i + 1] && t[j] == xs[j + 1];
      }
      DistinctCard(t);
      forall j | 0 <= j < |t|
        ensures t[j] != xs[0]
      {
        assert t[j] == xs[j + 1];
      }
      assert xs == [xs[0]] + t;
      assert (set k | k in xs) == {xs[0]} + (set k | k in t);
    }
  }

  /** An enumeration of a map lists as many keys as the map has. */
  lemma EnumerationCount(users: Users, order: seq<string>)
    requires Enumerates(users, order)
    ensures |order| == |users|
  {
    DistinctCard(order);
    assert users.Keys == set k | k in order;
  }

  /** `Object.values(users)`, where `order` is the enumeration of its keys. */
  function ValuesIn(users: Users, order: seq<string>): (r: seq<UserRecord>)
    requires Enumerates(users, order)
    ensures |r| == |order| == |users|
    ensures forall i | 0 <= i < |r| :: r[i] == users[order[i]]
    ensures forall k | k in users :: users[k] in r
  {
    var r := seq(|order|, i requires 0 <= i < |order| => users[order[i]]);
    EnumerationCount(users, order);
    assert forall k | k in users :: users[k] in r by {
      forall k | k in users
        ensures users[k] in r
      {
        var i :| 0 <= i < |order| && order[i] == k;
        assert r[i] == users[k];
      }
    }
    r
  }

  /** The visit an incoming message records: only a sender with a truthy id is recorded. */
  function SenderVisit(from: Option<Sender>): (p: Option<Payload>)
    ensures p.Some? <==> from.Some? && from.value.id.Some? && from.value.id.value != 0
    ensures p.Some? ==> p.value.userId == Some(NumId(from.value.id.value)) && p.value.platform == Some("telegram")
  {
    if from.Some? && from.value.id.Some? && from.value.id.value != 0 then
      var f := from.value;
      Some(Payload(Some(NumId(f.id.value)), OrElse(f.username, None), OrElse(f.firstName, None),
                   OrElse(f.lastName, None), OrElse(f.languageCode, None), Some("telegram")))
    else None
  }

  /** What a message asks for; earlier commands win. */
  datatype Command = Start | ListUsers | BroadcastText | NoCommand

  function CommandOf(text: string): (c: Command)
    ensures c == Start <==> StartsWith(text, "/start")
    ensures c == ListUsers <==> !StartsWith(text, "/start") && StartsWith(text, "/users")
    ensures c == BroadcastText <==>
      !StartsWith(text, "/start") && !StartsWith(text, "/users") && StartsWith(text, BroadcastCommand)
  {
    if StartsWith(text, "/start") then Start
    else if StartsWith(text, "/users") then ListUsers
    else if StartsWith(text, BroadcastCommand) then BroadcastText
    else NoCommand
  }

  /** Settings read from the environment at start-up. */
  datatype Config = Config(admins: set<JsNumber>, webappUrl: string)

  /** Which admin check the dispatch applies: the program's `isAdmin`, or the corrected one. */
  datatype AdminCheck = AsWritten | Corrected

  function Admits(check: AdminCheck, admins: set<JsNumber>, sender: Option<int>): (r: bool)
    ensures check == AsWritten ==> r == IsAdminAsWritten(admins, sender)
    ensures check == Corrected ==> r == IsAdmin(admins, sender)
  {
    match check
    case AsWritten => IsAdminAsWritten(admins, sender)
    case Corrected => IsAdmin(admins, sender)
  }

  /** The id `isAdmin(from?.id)` is asked about. */
  function SenderId(m: Message): Option<int>
  {
    if m.from.Some? then m.from.value.id else None
  }

  /** The user map once the update's sender has been recorded. */
  function StoreAfter(users: Users, update: Update, now: int): Users
  {
    if update.message.Some? then Upsert(users, SenderVisit(update.message.value.from), now) else users
  }

  /**
   * `handleTelegramUpdate`: record the sender, then answer in the chat:
   * `/start` with the web-app keyboard, `/users` and `/broadcast` for
   * admins only, anything else with nothing. With `check == AsWritten`
   * this is the program; `Corrected` swaps in the intended admin check.
   * `order` is the enumeration of the user map's keys once the sender is
   * recorded.
   */
  function HandleUpdate(cfg: Config, users: Users, order: seq<string>, update: Update, now: int, check: AdminCheck)
    : (r: (seq<Send>, Users))
    requires Enumerates(StoreAfter(users, update, now), order)
    ensures update.message.None? ==> r == ([], users)
    ensures update.message.Some? ==> r.1 == Upsert(users, SenderVisit(update.message.value.from), now)
    ensures update.message.Some? && (update.message.value.chatId.None? || update.message.value.chatId == Some(0))
      ==> r.0 == []
    ensures update.message.Some? && update.message.value.chatId.Some? && update.message.value.chatId != Some(0) ==>
      var m := update.message.value;
      var chat := m.chatId.value;
      var text := m.text.GetOr("");
      match CommandOf(text)
      case Start => r.0 == [Send(ChatId(chat), OpenCalculator, Some(WebAppKeyboard(cfg.webappUrl)))]
      case ListUsers =>
        if Admits(check, cfg.admins, SenderId(m)) then r.0 == [Send(ChatId(chat), UsersReply(ValuesIn(r.1, order)), None)]
        else r.0 == [Send(ChatId(chat), NoAccess, None)]
      case BroadcastText =>
        if Admits(check, cfg.admins, SenderId(m)) then r.0 == Broadcast(chat, BroadcastPayload(text), order)
        else r.0 == [Send(ChatId(chat), NoAccess, None)]
      case NoCommand => r.0 == []
  {
    match update.message
    case None => ([], users)
    case Some(m) =>
      var users1 := Upsert(users, SenderVisit(m.from), now);
      if m.chatId.None? || m.chatId == Some(0) then ([], users1)
      else
        var chat := m.chatId.value;
        var text := m.text.GetOr("");
        match CommandOf(text)
        case Start => ([Send(ChatId(chat), OpenCalculator, Some(WebAppKeyboard(cfg.webappUrl)))], users1)
        case ListUsers =>
          if Admits(check, cfg.admins, SenderId(m)) then ([Send(ChatId(chat), UsersReply(ValuesIn(users1, order)), None)], users1)
          else ([Send(ChatId(chat), NoAccess, None)], users1)
        case BroadcastText =>
          if Admits(check, cfg.admins, SenderId(m)) then (Broadcast(chat, BroadcastPayload(text), order), users1)
          else ([Send(ChatId(chat), NoAccess, None)], users1)
        case NoCommand => ([], users1)
  }

  /** A sender the check refuses gets only the refusal for `/users` or `/broadcast`. */
  lemma NonAdminRefused(cfg: Config, users: Users, order: seq<string>, m: Message, now: int, check: AdminCheck)
    requires Enumerates(StoreAfter(users, Update(Some(m)), now), order)
    requires m.chatId.Some? && m.chatId != Some(0)
    requires CommandOf(m.text.GetOr("")) in {ListUsers, BroadcastText}
    requires !Admits(check, cfg.admins, SenderId(m))
    ensures HandleUpdate(cfg, users, order, Update(Some(m)), now, check).0 == [Send(ChatId(m.chatId.value), NoAccess, None)]
  {
  }

  /** `/broadcast` with nothing after it sends only the usage line, to the admin's chat. */
  lemma EmptyBroadcastSendsUsageOnly(cfg: Config, users: Users, order: seq<string>, m: Message, now: int, check: AdminCheck)
    requires Enumerates(StoreAfter(users, Update(Some(m)), now), order)
    requires m.chatId.Some? && m.chatId != Some(0)
    requires m.text.Some? && StartsWith(m.text.value, BroadcastCommand)
    requires !StartsWith(m.text.value, "/start") && !StartsWith(m.text.value, "/users")
    requires forall i | |BroadcastCommand| <= i < |m.text.value| :: IsJsWhitespace(m.text.value[i])
    requires Admits(check, cfg.admins, SenderId(m))
    ensures HandleUpdate(cfg, users, order, Update(Some(m)), now, check).0
      == [Send(ChatId(m.chatId.value), BroadcastUsage, None)]
  {
    var text := m.text.value;
    var rest := text[|BroadcastCommand|..];
    assert forall i | 0 <= i < |rest| :: IsJsWhitespace(rest[i]);
    TrimEmptyIff(rest, IsJsWhitespace);
  }

  /**
   * An admin's non-empty broadcast goes to every stored user exactly once,
   * between two reports, and the first report counts them all.
   */
  lemma BroadcastReachesEveryUser(cfg: Config, users: Users, order: seq<string>, m: Message, now: int, check: AdminCheck)
    requires Enumerates(StoreAfter(users, Update(Some(m)), now), order)
    requires m.chatId.Some? && m.chatId != Some(0)
    requires CommandOf(m.text.GetOr("")) == BroadcastText
    requires BroadcastPayload(m.text.GetOr("")) != ""
    requires Admits(check, cfg.admins, SenderId(m))
    ensures var r := HandleUpdate(cfg, users, order, Update(Some(m)), now, check);
      && |r.0| == |r.1| + 2
      && r.0[0] == Send(ChatId(m.chatId.value), BroadcastStarted + IntToString(|r.1|), None)
      && (forall k | k in r.1 :: Send(UserKey(k), BroadcastPayload(m.text.GetOr("")), None) in r.0)
      && (forall i, j | 1 <= i < j < |r.0| - 1 :: r.0[i].to != r.0[j].to)
  {
    var r := HandleUpdate(cfg, users, order, Update(Some(m)), now, check);
    var payload := BroadcastPayload(m.text.GetOr(""));
    var sends := Broadcast(m.chatId.value, payload, order);
    assert r.0 == sends;
    EnumerationCount(r.1, order);
    forall k | k in r.1
      ensures Send(UserKey(k), payload, None) in sends
    {
      var j :| 0 <= j < |order| && order[j] == k;
      assert sends[j + 1] == Send(UserKey(k), payload, None);
    }
    forall i, j | 1 <= i < j < |sends| - 1
      ensures sends[i].to != sends[j].to
    {
      assert sends[i].to == UserKey(order[i - 1]) && sends[j].to == UserKey(order[j - 1]);
    }
  }

  /**
   * The program's check and the corrected one dispatch alike whenever the
   * message names its sender's id or no entry of `ADMIN_IDS` is `NaN`.
   */
  lemma ChecksAgree(cfg: Config, users: Users, order: seq<string>, update: Update, now: int)
    requires Enumerates(StoreAfter(users, update, now), order)
    requires update.message.Some? ==> SenderId(update.message.value).Some? || NaN !in cfg.admins
    ensures HandleUpdate(cfg, users, order, update, now, AsWritten) == HandleUpdate(cfg, users, order, update, now, Corrected)
  {
  }

  /**
   * Once `NaN` is among the admin ids, a `/users` message without a sender
   * gets the user listing from the program, and only the refusal once
   * corrected.
   */
  lemma SenderlessListing(cfg: Config, users: Users, order: seq<string>, chat: int, now: int)
    requires Enumerates(users, order)
    requires NaN in cfg.admins && chat != 0
    ensures var u := Update(Some(Message(None, Some(chat), Some("/users"))));
      && HandleUpdate(cfg, users, order, u, now, AsWritten).0 == [Send(ChatId(chat), UsersReply(ValuesIn(users, order)), None)]
      && HandleUpdate(cfg, users, order, u, now, Corrected).0 == [Send(ChatId(chat), NoAccess, None)]
  {
    var m := Message(None, Some(chat), Some("/users"));
    assert StoreAfter(users, Update(Some(m)), now) == users;
    assert Admits(AsWritten, cfg.admins, SenderId(m));
    assert !Admits(Corrected, cfg.admins, SenderId(m));
    assert CommandOf("/users") == ListUsers by {
      assert "/users"[1] != "/start"[1];
      assert StartsWith("/users", "/users");
    }
  }

  /** With `ADMIN_IDS=@alice`, a sender-less `/users` is answered with the user listing. */
  lemma AnonymousUsersAsWritten(webappUrl: string, users: Users, order: seq<string>, now: int)
    requires Enumerates(users, order)
    ensures var cfg := Config(AdminIds(Some(UsernameEntry)), webappUrl);
      HandleUpdate(cfg, users, order, Update(Some(Message(None, Some(5), Some("/users")))), now, AsWritten).0
        == [Send(ChatId(5), UsersReply(ValuesIn(users, order)), None)]
  {
    AnonymousAdminAsWritten();
    SenderlessListing(Config(AdminIds(Some(UsernameEntry)), webappUrl), users, order, 5, now);
  }
}
