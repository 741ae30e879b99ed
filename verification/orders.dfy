/**
 * Orders and their reminders as in-memory tables: `replace_reminders`,
 * `create_order`, the patch semantics of `update_order`, the 404/400 rules of
 * `set_order_reminders`, and the `reminders_due` / `mark_reminder_sent`
 * filters. Dates are day numbers, timestamps are plain integers supplied by
 * the caller. New row ids follow SQLite's rule for an integer primary key
 * without AUTOINCREMENT: one more than the largest id in the table, or 1
 * when it is empty, so the ids of deleted rows can come back.
 */
module Orders {
  import opened Wrappers
  import opened Reminders
  import opened Sorting

  /** HTTP status of a missing order or reminder. */
  const NotFound: int := 404
  /** HTTP status of `set_order_reminders` with neither dates nor offsets. */
  const BadRequest: int := 400
  /** HTTP status of a NOT NULL violation raised while flushing a patch. */
  const ServerError: int := 500

  datatype Order = Order(
    id: int, userId: int,
    client: string, orderNumber: string, status: string, priority: string,
    deadline: int, notes: Option<string>)

  datatype Reminder = Reminder(id: int, orderId: int, userId: int, remindOn: int, sentAt: Option<int>)

  datatype Store = Store(orders: seq<Order>, reminders: seq<Reminder>)

  /** A committed change with its result, or an HTTP error with nothing committed. */
  datatype Response<T> = Ok(store: Store, value: T) | Fail(status: int)

  /** The row filters the handlers put on the reminders table. */
  datatype Query =
    | OfOrder(orderId: int, userId: int)
    | DueFor(userId: int, target: int)
    | WithId(id: int, userId: int)

  predicate Matches(q: Query, x: Reminder)
  {
    match q
    case OfOrder(o, u) => x.orderId == o && x.userId == u
    case DueFor(u, t) => IsDue(x, u, t)
    case WithId(i, u) => x.id == i && x.userId == u
  }

  /** The rows `x` with `Matches(q, x) == keep`, in table order. */
  function Where(rs: seq<Reminder>, q: Query, keep: bool): (r: seq<Reminder>)
    ensures |r| <= |rs|
    ensures forall x :: x in r <==> x in rs && Matches(q, x) == keep
  {
    if |rs| == 0 then []
    else
      var init := rs[..|rs| - 1];
      var last := rs[|rs| - 1];
      assert rs == init + [last];
      if Matches(q, last) == keep then Where(init, q, keep) + [last] else Where(init, q, keep)
  }

  lemma WhereSnoc(rs: seq<Reminder>, x: Reminder, q: Query, keep: bool)
    ensures Where(rs + [x], q, keep) == Where(rs, q, keep) + (if Matches(q, x) == keep then [x] else [])
  {
    var rx := rs + [x];
    assert rx[..|rx| - 1] == rs;
  }

  lemma {:induction false} WhereAppend(a: seq<Reminder>, b: seq<Reminder>, q: Query, keep: bool)
    ensures Where(a + b, q, keep) == Where(a, q, keep) + Where(b, q, keep)
    decreases |b|
  {
    if |b| == 0 {
      assert a + b == a;
    } else {
      var init := b[..|b| - 1];
      var last := b[|b| - 1];
      assert a + b == (a + init) + [last];
      assert b == init + [last];
      WhereAppend(a, init, q, keep);
      WhereSnoc(a + init, last, q, keep);
      WhereSnoc(init, last, q, keep);
    }
  }

  /** A filter every row passes keeps the table as it is. */
  lemma {:induction false} WhereAll(rs: seq<Reminder>, q: Query, keep: bool)
    requires forall i | 0 <= i < |rs| :: Matches(q, rs[i]) == keep
    ensures Where(rs, q, keep) == rs
  {
    if |rs| > 0 {
      var init := rs[..|rs| - 1];
      assert rs == init + [rs[|rs| - 1]];
      WhereAll(init, q, keep);
    }
  }

  /** A filter no row passes gives nothing. */
  lemma {:induction false} WhereNone(rs: seq<Reminder>, q: Query, keep: bool)
    requires forall i | 0 <= i < |rs| :: Matches(q, rs[i]) != keep
    ensures Where(rs, q, keep) == []
  {
    if |rs| > 0 {
      WhereNone(rs[..|rs| - 1], q, keep);
    }
  }

  /** The index of the first row satisfying `p`, if any. */
  function FirstWhere<T>(xs: seq<T>, p: T -> bool): (r: Option<nat>)
    ensures r.None? <==> forall i | 0 <= i < |xs| :: !p(xs[i])
    ensures r.Some? ==> r.value < |xs| && p(xs[r.value]) && forall i | 0 <= i < r.value :: !p(xs[i])
  {
    if |xs| == 0 then None
    else if p(xs[0]) then Some(0)
    else match FirstWhere(xs[1..], p)
      case None => None
      case Some(k) => Some(k + 1)
  }

  /**
   * `get_order_or_404`: the first order with this id that belongs to this
   * user; orders of other users are invisible.
   */
  function FindOrder(orders: seq<Order>, userId: int, orderId: int): (r: Option<nat>)
    ensures r.None? <==> forall i | 0 <= i < |orders| :: !(orders[i].id == orderId && orders[i].userId == userId)
    ensures r.Some? ==> r.value < |orders| && orders[r.value].id == orderId && orders[r.value].userId == userId
    ensures r.Some? ==> forall i | 0 <= i < r.value :: !(orders[i].id == orderId && orders[i].userId == userId)
  {
    FirstWhere(orders, (o: Order) => o.id == orderId && o.userId == userId)
  }

  /** The largest of some ids. */
  function MaxId(ids: seq<int>): (m: int)
    requires |ids| > 0
    ensures m in ids
    ensures forall i | 0 <= i < |ids| :: ids[i] <= m
  {
    if |ids| == 1 then ids[0]
    else
      var m := MaxId(ids[1..]);
      assert forall i | 1 <= i < |ids| :: ids[i] == ids[1..][i - 1];
      if ids[0] > m then ids[0] else m
  }

  /**
   * The id SQLite gives a new row of a table whose key is an integer
   * primary key without AUTOINCREMENT: one more than the largest id
   * present, or 1 when the table is empty.
   */
  function NextRowId(ids: seq<int>): (r: int)
    ensures forall i | 0 <= i < |ids| :: ids[i] < r
    ensures |ids| == 0 ==> r == 1
    ensures |ids| > 0 ==> r - 1 in ids
  {
    if |ids| == 0 then 1 else MaxId(ids) + 1
  }

  /** After a row takes the next id, the one after it is next. */
  lemma NextRowIdAfterInsert(ids: seq<int>)
    ensures NextRowId(ids + [NextRowId(ids)]) == NextRowId(ids) + 1
  {
    var n := NextRowId(ids);
    var ids1 := ids + [n];
    assert ids1[|ids|] == n;
    var m := MaxId(ids1);
    assert n <= m;
    assert m in ids || m == n;
  }

  function ReminderIds(rs: seq<Reminder>): (r: seq<int>)
    ensures |r| == |rs| && forall i | 0 <= i < |rs| :: r[i] == rs[i].id
  {
    seq(|rs|, i requires 0 <= i < |rs| => rs[i].id)
  }

  function OrderIds(os: seq<Order>): (r: seq<int>)
    ensures |r| == |os| && forall i | 0 <= i < |os| :: r[i] == os[i].id
  {
    seq(|os|, i requires 0 <= i < |os| => os[i].id)
  }

  /** Unsent reminders for the dates `days`, numbered from `nextId`. */
  function NewReminders(order: Order, days: seq<int>, nextId: int): (r: seq<Reminder>)
    ensures |r| == |days|
  {
    seq(|days|, i requires 0 <= i < |days| => Reminder(nextId + i, order.id, order.userId, days[i], None))
  }

  /**
   * The reminders table after adding one unsent reminder per date, in
   * order; each insert takes the next rowid of the table as it then stands.
   */
  function InsertReminders(table: seq<Reminder>, order: Order, days: seq<int>): (r: seq<Reminder>)
    decreases |days|
  {
    if |days| == 0 then table
    else
      var row := Reminder(NextRowId(ReminderIds(table)), order.id, order.userId, days[0], None);
      InsertReminders(table + [row], order, days[1..])
  }

  /** Inserting one by one numbers the new rows consecutively from the table's next rowid. */
  lemma {:induction false} InsertRemindersConsecutive(table: seq<Reminder>, order: Order, days: seq<int>)
    ensures InsertReminders(table, order, days) == table + NewReminders(order, days, NextRowId(ReminderIds(table)))
    decreases |days|
  {
    if |days| > 0 {
      var n := NextRowId(ReminderIds(table));
      var row := Reminder(n, order.id, order.userId, days[0], None);
      assert ReminderIds(table + [row]) == ReminderIds(table) + [n];
      NextRowIdAfterInsert(ReminderIds(table));
      InsertRemindersConsecutive(table + [row], order, days[1..]);
      assert NewReminders(order, days, n) == [row] + NewReminders(order, days[1..], n + 1);
    }
  }

  /**
   * `replace_reminders`: delete the order's reminders, then insert one
   * unsent reminder per date of `ReminderDates`; returns the new store and
   * the created reminders. The new ids run consecutively from the next
   * rowid of the table left after the delete, so they may be ids that the
   * delete just freed.
   */
  function ReplaceReminders(s: Store, order: Order, offsets: Option<seq<Option<int>>>, dates: Option<seq<int>>)
    : (r: (Store, seq<Reminder>))
    ensures var kept := Where(s.reminders, OfOrder(order.id, order.userId), false);
      var days := ReminderDates(order.deadline, offsets, dates);
      && |r.1| == |days|
      && (forall i | 0 <= i < |r.1| ::
            r.1[i] == Reminder(NextRowId(ReminderIds(kept)) + i, order.id, order.userId, days[i], None))
    ensures r.0.reminders == Where(s.reminders, OfOrder(order.id, order.userId), false) + r.1
    ensures r.0.orders == s.orders
    ensures forall x :: x in r.0.reminders <==>
      (x in s.reminders && !Matches(OfOrder(order.id, order.userId), x)) || x in r.1
    ensures !Truthy(dates) && !Truthy(offsets) ==> r.1 == []
  {
    var q := OfOrder(order.id, order.userId);
    var kept := Where(s.reminders, q, false);
    var days := ReminderDates(order.deadline, offsets, dates);
    var table := InsertReminders(kept, order, days);
    InsertRemindersConsecutive(kept, order, days);
    (s.(reminders := table), table[|kept|..])
  }

  lemma SplitByOrder(kept: seq<Reminder>, created: seq<Reminder>, q: Query)
    requires forall i | 0 <= i < |kept| :: !Matches(q, kept[i])
    requires forall i | 0 <= i < |created| :: Matches(q, created[i])
    ensures Where(kept + created, q, true) == created
    ensures Where(kept + created, q, false) == kept
  {
    WhereAppend(kept, created, q, true);
    WhereAppend(kept, created, q, false);
    WhereNone(kept, q, true);
    WhereAll(created, q, true);
    WhereAll(kept, q, false);
    WhereNone(created, q, false);
  }

  /** Afterwards the order's reminders are exactly the created ones, in date order. */
  lemma OrderRemindersReplaced(s: Store, order: Order, offsets: Option<seq<Option<int>>>, dates: Option<seq<int>>)
    ensures var r := ReplaceReminders(s, order, offsets, dates);
      Where(r.0.reminders, OfOrder(order.id, order.userId), true) == r.1
  {
    var q := OfOrder(order.id, order.userId);
    var kept := Where(s.reminders, q, false);
    var created := ReplaceReminders(s, order, offsets, dates).1;
    forall i | 0 <= i < |kept|
      ensures !Matches(q, kept[i])
    {
      assert kept[i] in kept;
    }
    SplitByOrder(kept, created, q);
  }

  /** The order's reminders afterwards, numbered from the next rowid of the rows the delete left. */
  lemma ReplacedRemindersNumbered(s: Store, order: Order, offsets: Option<seq<Option<int>>>, dates: Option<seq<int>>)
    ensures var kept := Where(s.reminders, OfOrder(order.id, order.userId), false);
      Where(ReplaceReminders(s, order, offsets, dates).0.reminders, OfOrder(order.id, order.userId), true)
        == NewReminders(order, ReminderDates(order.deadline, offsets, dates), NextRowId(ReminderIds(kept)))
  {
    var kept := Where(s.reminders, OfOrder(order.id, order.userId), false);
    var days := ReminderDates(order.deadline, offsets, dates);
    var n := NextRowId(ReminderIds(kept));
    var created := ReplaceReminders(s, order, offsets, dates).1;
    var expected := NewReminders(order, days, n);
    OrderRemindersReplaced(s, order, offsets, dates);
    assert |created| == |expected|;
    forall i | 0 <= i < |created|
      ensures created[i] == expected[i]
    {
    }
    assert created == expected;
  }

  /** Every other row of the reminders table is left as it was, in order. */
  lemma OtherRemindersUntouched(s: Store, order: Order, offsets: Option<seq<Option<int>>>, dates: Option<seq<int>>)
    ensures var r := ReplaceReminders(s, order, offsets, dates);
      Where(r.0.reminders, OfOrder(order.id, order.userId), false)
        == Where(s.reminders, OfOrder(order.id, order.userId), false)
  {
    var q := OfOrder(order.id, order.userId);
    var kept := Where(s.reminders, q, false);
    var created := ReplaceReminders(s, order, offsets, dates).1;
    forall i | 0 <= i < |kept|
      ensures !Matches(q, kept[i])
    {
      assert kept[i] in kept;
    }
    SplitByOrder(kept, created, q);
  }

  predicate DistinctIds(rs: seq<Reminder>)
  {
    forall i, j | 0 <= i < j < |rs| :: rs[i].id != rs[j].id
  }

  /** No two reminder rows share an id, as the primary key demands. */
  predicate UniqueReminderIds(s: Store)
  {
    DistinctIds(s.reminders)
  }

  lemma {:induction false} WhereKeepsIdsDistinct(rs: seq<Reminder>, q: Query, keep: bool)
    requires DistinctIds(rs)
    ensures DistinctIds(Where(rs, q, keep))
  {
    if |rs| > 0 {
      var init := rs[..|rs| - 1];
      var last := rs[|rs| - 1];
      assert rs == init + [last];
      WhereKeepsIdsDistinct(init, q, keep);
      WhereSnoc(init, last, q, keep);
      var w := Where(init, q, keep);
      forall i | 0 <= i < |w|
        ensures w[i].id != last.id
      {
        assert w[i] in init;
        var k :| 0 <= k < |init| && init[k] == w[i];
        assert rs[k] == w[i];
      }
      if Matches(q, last) == keep {
        var r := w + [last];
        forall i, j | 0 <= i < j < |r|
          ensures r[i].id != r[j].id
        {
          assert r[i] == w[i];
          if j < |w| {
            assert r[j] == w[j];
          }
        }
      }
    }
  }

  /** `replace_reminders` keeps the reminder ids unique. */
  lemma ReplaceKeepsIdsUnique(s: Store, order: Order, offsets: Option<seq<Option<int>>>, dates: Option<seq<int>>)
    requires UniqueReminderIds(s)
    ensures UniqueReminderIds(ReplaceReminders(s, order, offsets, dates).0)
  {
    var r := ReplaceReminders(s, order, offsets, dates);
    var kept := Where(s.reminders, OfOrder(order.id, order.userId), false);
    var n := NextRowId(ReminderIds(kept));
    WhereKeepsIdsDistinct(s.reminders, OfOrder(order.id, order.userId), false);
    forall i | 0 <= i < |kept|
      ensures kept[i].id < n
    {
      assert ReminderIds(kept)[i] == kept[i].id;
    }
    var all := r.0.reminders;
    assert all == kept + r.1;
    forall i, j | 0 <= i < j < |all|
      ensures all[i].id != all[j].id
    {
      if j < |kept| {
        assert all[i] == kept[i] && all[j] == kept[j];
      } else if i < |kept| {
        assert all[i] == kept[i] && all[j] == r.1[j - |kept|];
        assert all[i].id < n <= all[j].id;
      } else {
        assert all[i] == r.1[i - |kept|] && all[j] == r.1[j - |kept|];
        assert all[i].id == n + (i - |kept|);
        assert all[j].id == n + (j - |kept|);
      }
    }
  }

  /**
   * `create_order`: a new order row, whose id is the next rowid of the
   * orders table, then its reminders from the given offsets (explicit dates
   * are not accepted here).
   */
  function CreateOrder(
    s: Store, userId: int, client: string, orderNumber: string, status: string, priority: string,
    deadline: int, notes: Option<string>, offsets: Option<seq<Option<int>>>): (r: Response<Order>)
    ensures r.Ok?
    ensures r.value.userId == userId && r.value.client == client && r.value.orderNumber == orderNumber
    ensures r.value.status == status && r.value.priority == priority
    ensures r.value.deadline == deadline && r.value.notes == notes
    ensures forall i | 0 <= i < |s.orders| :: s.orders[i].id < r.value.id
    ensures s.orders == [] ==> r.value.id == 1
    ensures r.store.orders == s.orders + [r.value]
    ensures r.store == ReplaceReminders(s.(orders := r.store.orders), r.value, offsets, None).0
  {
    var order := Order(NextRowId(OrderIds(s.orders)), userId, client, orderNumber, status, priority, deadline, notes);
    assert forall i | 0 <= i < |s.orders| :: OrderIds(s.orders)[i] == s.orders[i].id;
    var s1 := s.(orders := s.orders + [order]);
    Ok(ReplaceReminders(s1, order, offsets, None).0, order)
  }

  /** The new order is the one `get_order_or_404` finds under its id for its user. */
  lemma CreatedOrderFound(
    s: Store, userId: int, client: string, orderNumber: string, status: string, priority: string,
    deadline: int, notes: Option<string>, offsets: Option<seq<Option<int>>>)
    ensures var r := CreateOrder(s, userId, client, orderNumber, status, priority, deadline, notes, offsets);
      FindOrder(r.store.orders, userId, r.value.id) == Some(|s.orders|)
  {
    var r := CreateOrder(s, userId, client, orderNumber, status, priority, deadline, notes, offsets);
    assert r.store.orders[|s.orders|] == r.value;
    forall i | 0 <= i < |s.orders|
      ensures r.store.orders[i].id != r.value.id
    {
      assert r.store.orders[i] == s.orders[i];
    }
  }

  /** `create_order` keeps the reminder ids unique. */
  lemma CreateKeepsIdsUnique(
    s: Store, userId: int, client: string, orderNumber: string, status: string, priority: string,
    deadline: int, notes: Option<string>, offsets: Option<seq<Option<int>>>)
    requires UniqueReminderIds(s)
    ensures UniqueReminderIds(CreateOrder(s, userId, client, orderNumber, status, priority, deadline, notes, offsets).store)
  {
    var r := CreateOrder(s, userId, client, orderNumber, status, priority, deadline, notes, offsets);
    ReplaceKeepsIdsUnique(s.(orders := r.store.orders), r.value, offsets, None);
  }

  /**
   * The new order's reminders are exactly one unsent reminder per offset
   * date, in date order, numbered from the next rowid of the reminders
   * table (rows already carrying the new order's id are deleted first).
   */
  lemma CreatedOrderReminders(
    s: Store, userId: int, client: string, orderNumber: string, status: string, priority: string,
    deadline: int, notes: Option<string>, offsets: Option<seq<Option<int>>>)
    ensures var r := CreateOrder(s, userId, client, orderNumber, status, priority, deadline, notes, offsets);
      var kept := Where(s.reminders, OfOrder(r.value.id, userId), false);
      Where(r.store.reminders, OfOrder(r.value.id, userId), true)
        == NewReminders(r.value, ReminderDates(deadline, offsets, None), NextRowId(ReminderIds(kept)))
  {
    var r := CreateOrder(s, userId, client, orderNumber, status, priority, deadline, notes, offsets);
    ReplacedRemindersNumbered(s.(orders := r.store.orders), r.value, offsets, None);
  }

  /** A field of a partial update: left out of the payload, or given (possibly as null). */
  datatype Field<T> = Unset | Set(value: T)

  /** The body of `PATCH /orders/{id}`. */
  datatype OrderPatch = OrderPatch(
    client: Field<Option<string>>,
    orderNumber: Field<Option<string>>,
    status: Field<Option<string>>,
    priority: Field<Option<string>>,
    deadline: Field<Option<int>>,
    notes: Field<Option<string>>,
    reminderOffsets: Field<Option<seq<Option<int>>>>)

  const EmptyPatch: OrderPatch := OrderPatch(Unset, Unset, Unset, Unset, Unset, Unset, Unset)

  /** A NOT NULL column: `None` when the payload writes null into it. */
  function Required<T>(f: Field<Option<T>>, current: T): (r: Option<T>)
    ensures f.Unset? ==> r == Some(current)
    ensures f.Set? ==> r == f.value
  {
    match f
    case Unset => Some(current)
    case Set(v) => v
  }

  /** A nullable column. */
  function Nullable<T>(f: Field<T>, current: T): (r: T)
    ensures f.Unset? ==> r == current
    ensures f.Set? ==> r == f.value
  {
    match f
    case Unset => current
    case Set(v) => v
  }

  /** Some required column of the patch is explicitly null. */
  predicate WritesNull(p: OrderPatch)
  {
    p.client == Set(None) || p.orderNumber == Set(None) || p.status == Set(None)
      || p.priority == Set(None) || p.deadline == Set(None)
  }

  /**
   * The `setattr` loop: every field present in the payload is written,
   * every other field keeps its value; `reminder_offsets` is popped first
   * and never reaches the order. `None` when the flush would violate a NOT
   * NULL constraint.
   */
  function ApplyPatch(o: Order, p: OrderPatch): (r: Option<Order>)
    ensures r.None? <==> WritesNull(p)
    ensures r.Some? ==> r.value.id == o.id && r.value.userId == o.userId
    ensures r.Some? ==>
      && (p.client.Unset? ==> r.value.client == o.client)
      && (p.orderNumber.Unset? ==> r.value.orderNumber == o.orderNumber)
      && (p.status.Unset? ==> r.value.status == o.status)
      && (p.priority.Unset? ==> r.value.priority == o.priority)
      && (p.deadline.Unset? ==> r.value.deadline == o.deadline)
      && (p.notes.Unset? ==> r.value.notes == o.notes)
    ensures r.Some? ==>
      && (p.client.Set? ==> Some(r.value.client) == p.client.value)
      && (p.orderNumber.Set? ==> Some(r.value.orderNumber) == p.orderNumber.value)
      && (p.status.Set? ==> Some(r.value.status) == p.status.value)
      && (p.priority.Set? ==> Some(r.value.priority) == p.priority.value)
      && (p.deadline.Set? ==> Some(r.value.deadline) == p.deadline.value)
      && (p.notes.Set? ==> r.value.notes == p.notes.value)
  {
    var client := Required(p.client, o.client);
    var orderNumber := Required(p.orderNumber, o.orderNumber);
    var status := Required(p.status, o.status);
    var priority := Required(p.priority, o.priority);
    var deadline := Required(p.deadline, o.deadline);
    if client.None? || orderNumber.None? || status.None? || priority.None? || deadline.None? then None
    else Some(o.(client := client.value, orderNumber := orderNumber.value, status := status.value,
                 priority := priority.value, deadline := deadline.value, notes := Nullable(p.notes, o.notes)))
  }

  /** An empty payload changes nothing. */
  lemma EmptyPatchIsIdentity(o: Order)
    ensures ApplyPatch(o, EmptyPatch) == Some(o)
  {
  }

  /** Applying the same patch twice is applying it once. */
  lemma PatchIdempotent(o: Order, p: OrderPatch)
    requires ApplyPatch(o, p).Some?
    ensures ApplyPatch(ApplyPatch(o, p).value, p) == ApplyPatch(o, p)
  {
  }

  /** The offsets of a patch never influence the order row. */
  lemma OffsetsNotStored(o: Order, p: OrderPatch, offsets: Field<Option<seq<Option<int>>>>)
    ensures ApplyPatch(o, p.(reminderOffsets := offsets)) == ApplyPatch(o, p)
  {
  }

  /**
   * `update_order`: 404 for an order the user does not own; the patch is
   * written, failing as a whole on a NOT NULL violation; the reminders are
   * rebuilt from the new deadline only when `reminder_offsets` was given
   * and is not null.
   */
  function UpdateOrder(s: Store, userId: int, orderId: int, p: OrderPatch): (r: Response<Order>)
    ensures r == Fail(NotFound) <==> FindOrder(s.orders, userId, orderId).None?
    ensures r == Fail(ServerError) <==> FindOrder(s.orders, userId, orderId).Some? && WritesNull(p)
    ensures r.Ok? <==> FindOrder(s.orders, userId, orderId).Some? && !WritesNull(p)
    ensures r.Ok? ==>
      var i := FindOrder(s.orders, userId, orderId).value;
      && Some(r.value) == ApplyPatch(s.orders[i], p)
      && r.store.orders == s.orders[i := r.value]
    ensures r.Ok? && !(p.reminderOffsets.Set? && p.reminderOffsets.value.Some?) ==>
      r.store.reminders == s.reminders
    ensures r.Ok? && p.reminderOffsets.Set? && p.reminderOffsets.value.Some? ==>
      r.store == ReplaceReminders(s.(orders := r.store.orders), r.value, p.reminderOffsets.value, None).0
  {
    match FindOrder(s.orders, userId, orderId)
    case None => Fail(NotFound)
    case Some(i) =>
      match ApplyPatch(s.orders[i], p)
      case None => Fail(ServerError)
      case Some(o) =>
        var s1 := s.(orders := s.orders[i := o]);
        if p.reminderOffsets.Set? && p.reminderOffsets.value.Some? then
          Ok(ReplaceReminders(s1, o, p.reminderOffsets.value, None).0, o)
        else
          Ok(s1, o)
  }

  /**
   * `set_order_reminders`: 404 for an order the user does not own, 400
   * when neither offsets nor dates are truthy (before anything is deleted),
   * otherwise the reminders are replaced.
   */
  function SetOrderReminders(s: Store, userId: int, orderId: int,
                             offsets: Option<seq<Option<int>>>, dates: Option<seq<int>>): (r: Response<seq<Reminder>>)
    ensures r == Fail(NotFound) <==> FindOrder(s.orders, userId, orderId).None?
    ensures r == Fail(BadRequest) <==>
      FindOrder(s.orders, userId, orderId).Some? && !Truthy(offsets) && !Truthy(dates)
    ensures r.Ok? <==> FindOrder(s.orders, userId, orderId).Some? && (Truthy(offsets) || Truthy(dates))
    ensures r.Ok? ==>
      var order := s.orders[FindOrder(s.orders, userId, orderId).value];
      (r.store, r.value) == ReplaceReminders(s, order, offsets, dates)
    ensures r.Ok? ==> |r.value| > 0 || !Truthy(dates)
  {
    match FindOrder(s.orders, userId, orderId)
    case None => Fail(NotFound)
    case Some(i) =>
      if !Truthy(offsets) && !Truthy(dates) then Fail(BadRequest)
      else
        var (s1, created) := ReplaceReminders(s, s.orders[i], offsets, dates);
        Ok(s1, created)
  }

  /** Setting reminders keeps the reminder ids unique. */
  lemma SetKeepsIdsUnique(s: Store, userId: int, orderId: int,
                         offsets: Option<seq<Option<int>>>, dates: Option<seq<int>>)
    requires UniqueReminderIds(s)
    ensures SetOrderReminders(s, userId, orderId, offsets, dates).Ok? ==>
      UniqueReminderIds(SetOrderReminders(s, userId, orderId, offsets, dates).store)
  {
    if SetOrderReminders(s, userId, orderId, offsets, dates).Ok? {
      ReplaceKeepsIdsUnique(s, s.orders[FindOrder(s.orders, userId, orderId).value], offsets, dates);
    }
  }

  /**
   * After a successful set, the order's reminders are exactly the returned
   * ones, and every other reminder row is kept, in order.
   */
  lemma SetRemindersReplaced(s: Store, userId: int, orderId: int,
                             offsets: Option<seq<Option<int>>>, dates: Option<seq<int>>)
    ensures var r := SetOrderReminders(s, userId, orderId, offsets, dates);
      r.Ok? ==>
        && Where(r.store.reminders, OfOrder(orderId, userId), true) == r.value
        && Where(r.store.reminders, OfOrder(orderId, userId), false) == Where(s.reminders, OfOrder(orderId, userId), false)
  {
    if SetOrderReminders(s, userId, orderId, offsets, dates).Ok? {
      var order := s.orders[FindOrder(s.orders, userId, orderId).value];
      OrderRemindersReplaced(s, order, offsets, dates);
      OtherRemindersUntouched(s, order, offsets, dates);
    }
  }

  /**
   * When every reminder row belongs to the order, the delete empties the
   * table, and the new reminders are numbered from 1 again, whatever ids
   * the deleted rows had.
   */
  lemma ReplacingAllRestartsAtOne(s: Store, userId: int, orderId: int,
                                  offsets: Option<seq<Option<int>>>, dates: Option<seq<int>>)
    requires forall i | 0 <= i < |s.reminders| :: Matches(OfOrder(orderId, userId), s.reminders[i])
    ensures var r := SetOrderReminders(s, userId, orderId, offsets, dates);
      r.Ok? ==> forall i | 0 <= i < |r.value| :: r.value[i].id == i + 1
  {
    var r := SetOrderReminders(s, userId, orderId, offsets, dates);
    if r.Ok? {
      var order := s.orders[FindOrder(s.orders, userId, orderId).value];
      assert OfOrder(order.id, order.userId) == OfOrder(orderId, userId);
      WhereNone(s.reminders, OfOrder(orderId, userId), false);
    }
  }

  /**
   * An id freed by the delete is handed out again: with reminders 1 and 2
   * of order 1, setting the single date 100 creates reminder 1 anew.
   */
  lemma FreedIdReused()
    ensures var s := Store([Order(1, 10, "c", "n", "new", "normal", 200, None)],
                           [Reminder(1, 1, 10, 50, None), Reminder(2, 1, 10, 60, None)]);
      var r := SetOrderReminders(s, 10, 1, None, Some([100]));
      && r.Ok? && r.value == [Reminder(1, 1, 10, 100, None)]
      && Reminder(1, 1, 10, 50, None) in s.reminders
  {
    var s := Store([Order(1, 10, "c", "n", "new", "normal", 200, None)],
                   [Reminder(1, 1, 10, 50, None), Reminder(2, 1, 10, 60, None)]);
    assert FindOrder(s.orders, 10, 1) == Some(0);
    SortedDatesKept(200, None, [100]);
    ReplacingAllRestartsAtOne(s, 10, 1, None, Some([100]));
  }

  /** Each row passing the filter keeps its multiplicity; the others are gone. */
  lemma {:induction false} WhereCounts(rs: seq<Reminder>, q: Query, keep: bool, x: Reminder)
    ensures multiset(Where(rs, q, keep))[x] == if Matches(q, x) == keep then multiset(rs)[x] else 0
  {
    if |rs| > 0 {
      var init := rs[..|rs| - 1];
      var last := rs[|rs| - 1];
      assert rs == init + [last];
      WhereCounts(init, q, keep, x);
    }
  }

  predicate SortedByDay(rs: seq<Reminder>)
  {
    forall i, j | 0 <= i < j < |rs| :: rs[i].remindOn <= rs[j].remindOn
  }

  /** The user's reminder, not yet sent, on or before the target day. */
  predicate IsDue(x: Reminder, userId: int, target: int)
  {
    x.userId == userId && x.remindOn <= target && x.sentAt.None?
  }

  /**
   * `reminders_due`: the user's unsent reminders due on or before the
   * target day (the given day, else today), ascending by day.
   */
  function RemindersDue(s: Store, userId: int, on: Option<int>, today: int): (r: seq<Reminder>)
    ensures SortedByDay(r)
    ensures forall x :: multiset(r)[x] == if IsDue(x, userId, on.GetOr(today)) then multiset(s.reminders)[x] else 0
  {
    var q := DueFor(userId, on.GetOr(today));
    var due := Where(s.reminders, q, true);
    assert forall x :: multiset(due)[x] == if Matches(q, x) then multiset(s.reminders)[x] else 0 by {
      forall x
        ensures multiset(due)[x] == if Matches(q, x) then multiset(s.reminders)[x] else 0
      {
        WhereCounts(s.reminders, q, true, x);
      }
    }
    var day := (x: Reminder) => x.remindOn;
    var r := SortBy(due, day);
    assert SortedBy(r, day);
    r
  }

  /** A reminder is due exactly when it is the user's, not yet sent, and not after the target. */
  lemma DueMembership(s: Store, userId: int, on: Option<int>, today: int, x: Reminder)
    ensures x in RemindersDue(s, userId, on, today) <==>
      x in s.reminders && IsDue(x, userId, on.GetOr(today))
  {
    var r := RemindersDue(s, userId, on, today);
    assert x in r <==> multiset(r)[x] > 0;
    assert x in s.reminders <==> multiset(s.reminders)[x] > 0;
  }

  /** The first reminder with this id that belongs to this user. */
  function FindReminder(rs: seq<Reminder>, userId: int, reminderId: int): (r: Option<nat>)
    ensures r.None? <==> forall i | 0 <= i < |rs| :: !Matches(WithId(reminderId, userId), rs[i])
    ensures r.Some? ==> r.value < |rs| && Matches(WithId(reminderId, userId), rs[r.value])
  {
    FirstWhere(rs, (x: Reminder) => Matches(WithId(reminderId, userId), x))
  }

  /**
   * `mark_reminder_sent`: 404 unless the user owns a reminder with this id;
   * otherwise that row gets `sent_at = now` and nothing else changes.
   */
  function MarkReminderSent(s: Store, userId: int, reminderId: int, now: int): (r: Response<Reminder>)
    ensures r == Fail(NotFound) <==> FindReminder(s.reminders, userId, reminderId).None?
    ensures r.Ok? <==> FindReminder(s.reminders, userId, reminderId).Some?
    ensures r.Ok? ==>
      var i := FindReminder(s.reminders, userId, reminderId).value;
      && r.value == s.reminders[i].(sentAt := Some(now))
      && r.store == s.(reminders := s.reminders[i := r.value])
  {
    match FindReminder(s.reminders, userId, reminderId)
    case None => Fail(NotFound)
    case Some(i) =>
      var marked := s.reminders[i].(sentAt := Some(now));
      Ok(s.(reminders := s.reminders[i := marked]), marked)
  }

  /** Marking keeps the reminder ids unique. */
  lemma MarkKeepsIdsUnique(s: Store, userId: int, reminderId: int, now: int)
    requires UniqueReminderIds(s)
    ensures MarkReminderSent(s, userId, reminderId, now).Ok? ==>
      UniqueReminderIds(MarkReminderSent(s, userId, reminderId, now).store)
  {
  }

  /** Once marked, no reminder with that id is due any more, whatever the day. */
  lemma MarkedNoLongerDue(s: Store, userId: int, reminderId: int, now: int, on: Option<int>, today: int)
    requires UniqueReminderIds(s)
    requires MarkReminderSent(s, userId, reminderId, now).Ok?
    ensures forall x | x in RemindersDue(MarkReminderSent(s, userId, reminderId, now).store, userId, on, today) ::
      x.id != reminderId
  {
    var r := MarkReminderSent(s, userId, reminderId, now);
    var i := FindReminder(s.reminders, userId, reminderId).value;
    forall x | x in RemindersDue(r.store, userId, on, today)
      ensures x.id != reminderId
    {
      DueMembership(r.store, userId, on, today, x);
      var j :| 0 <= j < |r.store.reminders| && r.store.reminders[j] == x;
      if j != i {
        assert x == s.reminders[j];
        assert i < j || j < i;
      }
    }
  }
}
