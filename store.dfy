/** The grant store and payment ledger: the `users`, `user_groups` and
    `payments` tables and the statements the bot and the HTTP service run
    against them. Each table is a map keyed by its primary key; every SQL
    statement is one method that reassigns the map it writes. */
module Store {
  import opened Common
  import opened Timing

  /** A payment's `status` column; the code writes only these three values. */
  datatype Status = Pending | Approved | Rejected

  /** One `users` row. `groupId` is the primary grant's group (NULL after
      `clear_user_group`); `course` is the HTTP service's `course_name`. */
  datatype UserRow = UserRow(
    username: Option<string>,
    fullName: Option<string>,
    groupId: Option<int>,
    expiresAt: int,
    phone: Option<string>,
    agreedAt: Option<int>,
    course: Option<string>)

  datatype Payment = Payment(userId: int, photoFile: string, status: Status, createdAt: int, adminId: Option<int>)

  /** One row of the expiry queries: `(user_id, group_id, expires_at)`. */
  datatype ExpiryRow = ExpiryRow(uid: int, gid: Option<int>, expiresAt: int)

  /** One row of `all_members_of_group`: `(username, full_name, expires_at, phone)`. */
  datatype MemberRow = MemberRow(username: Option<string>, fullName: Option<string>, expiresAt: int, phone: Option<string>)

  // ---------------------------------------------------------------- row rules

  /** `INSERT … ON CONFLICT(user_id) DO UPDATE`: name, group and expiry are
      overwritten; phone and agreed_at keep the stored value when the new one
      is NULL (`COALESCE`); columns the statement does not name keep theirs. */
  function Upserted(old_: Option<UserRow>, username: string, fullName: string, groupId: int, expiresAt: int,
                    phone: Option<string>, agreedAt: Option<int>): UserRow
  {
    match old_
    case None => UserRow(Some(username), Some(fullName), Some(groupId), expiresAt, phone, agreedAt, None)
    case Some(r) =>
      UserRow(Some(username), Some(fullName), Some(groupId), expiresAt,
              if phone.Some? then phone else r.phone,
              if agreedAt.Some? then agreedAt else r.agreedAt,
              r.course)
  }

  /** After an upsert the row holds the new grant, a new phone or consent
      time when one was given and the stored one otherwise, and running the
      same upsert again changes nothing. */
  lemma UpsertedSpec(old_: Option<UserRow>, username: string, fullName: string, groupId: int, expiresAt: int,
                     phone: Option<string>, agreedAt: Option<int>)
    ensures var r := Upserted(old_, username, fullName, groupId, expiresAt, phone, agreedAt);
      && r.groupId == Some(groupId) && r.expiresAt == expiresAt
      && r.username == Some(username) && r.fullName == Some(fullName)
      && (phone.None? && old_.Some? ==> r.phone == old_.value.phone)
      && (phone.Some? ==> r.phone == phone)
      && (agreedAt.None? && old_.Some? ==> r.agreedAt == old_.value.agreedAt)
      && (agreedAt.Some? ==> r.agreedAt == agreedAt)
      && (old_.Some? ==> r.course == old_.value.course)
      && Upserted(Some(r), username, fullName, groupId, expiresAt, phone, agreedAt) == r
  {
  }

  /** `INSERT … VALUES(…, group_id 0, expires_at 0) ON CONFLICT(user_id) DO
      UPDATE SET username, full_name[, agreed_at]`: a new user starts with
      no grant; an existing one only gets new names (and a new consent time
      when one is given). */
  function Registered(old_: Option<UserRow>, username: Option<string>, fullName: string, agreedAt: Option<int>): UserRow
  {
    match old_
    case None => UserRow(username, Some(fullName), Some(0), 0, None, agreedAt, None)
    case Some(r) => r.(username := username, fullName := Some(fullName),
                       agreedAt := if agreedAt.Some? then agreedAt else r.agreedAt)
  }

  /** Registering never touches an existing grant, phone or course, and a
      new row has the "no grant" values group 0 and expiry 0. */
  lemma RegisteredSpec(old_: Option<UserRow>, username: Option<string>, fullName: string, agreedAt: Option<int>)
    ensures var r := Registered(old_, username, fullName, agreedAt);
      && r.username == username && r.fullName == Some(fullName)
      && (old_.Some? ==> r.groupId == old_.value.groupId && r.expiresAt == old_.value.expiresAt
                         && r.phone == old_.value.phone && r.course == old_.value.course)
      && (old_.None? ==> r.groupId == Some(0) && r.expiresAt == 0 && r.phone.None? && r.course.None?)
      && (agreedAt.Some? ==> r.agreedAt == agreedAt)
      && (agreedAt.None? && old_.Some? ==> r.agreedAt == old_.value.agreedAt)
      && Registered(Some(r), username, fullName, agreedAt) == r
  {
  }

  /** The migration's `INSERT … ON CONFLICT(user_id) DO UPDATE`: every
      column it names is overwritten, NULLs included; only `course_name`,
      which it does not name, keeps the stored value. */
  function Replaced(old_: Option<UserRow>, username: Option<string>, fullName: Option<string>, groupId: Option<int>,
                    expiresAt: int, phone: Option<string>, agreedAt: Option<int>): UserRow
  {
    UserRow(username, fullName, groupId, expiresAt, phone, agreedAt, if old_.Some? then old_.value.course else None)
  }

  /** The stored row depends only on the last write and the original
      course: writing twice is writing the second time. */
  lemma ReplacedTwice(o: Option<UserRow>, username: Option<string>, fullName: Option<string>, groupId: Option<int>,
                      expiresAt: int, phone: Option<string>, agreedAt: Option<int>, r: UserRow)
    requires r.course == (if o.Some? then o.value.course else None)
    ensures Replaced(Some(r), username, fullName, groupId, expiresAt, phone, agreedAt)
         == Replaced(o, username, fullName, groupId, expiresAt, phone, agreedAt)
  {
  }

  /** The single-column `UPDATE users SET … WHERE user_id=?` statements. */
  datatype Change =
    | SetExpiry(expiresAt: int)
    | SetPhone(phone: string)
    | SetFullName(fullName: string)
    | SetAgreed(agreedAt: int)
    | SetCourse(course: string)
    | SetGrant(groupId: int, grantExpiresAt: int)

  function Apply(r: UserRow, c: Change): UserRow {
    match c
    case SetExpiry(e) => r.(expiresAt := e)
    case SetPhone(p) => r.(phone := Some(p))
    case SetFullName(n) => r.(fullName := Some(n))
    case SetAgreed(t) => r.(agreedAt := Some(t))
    case SetCourse(n) => r.(course := Some(n))
    case SetGrant(g, e) => r.(groupId := Some(g), expiresAt := e)
  }

  /** Each update writes its own column(s) and leaves the grant, contact and
      consent columns it does not name as they were. */
  lemma ApplySpec(r: UserRow, c: Change)
    ensures var n := Apply(r, c);
      && n.username == r.username
      && (n.fullName != r.fullName ==> c.SetFullName?)
      && (n.groupId != r.groupId ==> c.SetGrant?)
      && (n.expiresAt != r.expiresAt ==> c.SetExpiry? || c.SetGrant?)
      && (n.phone != r.phone ==> c.SetPhone?)
      && (n.agreedAt != r.agreedAt ==> c.SetAgreed?)
      && (n.course != r.course ==> c.SetCourse?)
      && (c.SetPhone? ==> n.phone == Some(c.phone))
      && (c.SetGrant? ==> n.groupId == Some(c.groupId) && n.expiresAt == c.grantExpiresAt)
      && Apply(n, c) == n
  {
  }

  /** `UPDATE users SET group_id=NULL WHERE user_id=? AND group_id=?`. */
  function ClearedIfEqual(r: UserRow, gid: int): UserRow {
    if r.groupId == Some(gid) then r.(groupId := None) else r
  }

  lemma ClearedIfEqualSpec(r: UserRow, gid: int)
    ensures ClearedIfEqual(r, gid).groupId != Some(gid)
    ensures r.groupId != Some(gid) ==> ClearedIfEqual(r, gid) == r
    ensures ClearedIfEqual(r, gid) == r.(groupId := ClearedIfEqual(r, gid).groupId)
    ensures ClearedIfEqual(ClearedIfEqual(r, gid), gid) == ClearedIfEqual(r, gid)
  {
  }

  // ------------------------------------------------------------ time windows

  /** `expires_at > now AND expires_at <= now + days*86400`. */
  predicate IsSoon(exp: int, now: int, days: int) {
    now < exp <= now + days * DAY
  }

  /** `expires_at > 0 AND expires_at <= now`. */
  predicate IsExpired(exp: int, now: int) {
    0 < exp <= now
  }

  /** For a clock at or after the epoch, no expiry is both soon and expired,
      and the "no expiry" value 0 is neither. */
  lemma WindowsDisjoint(exp: int, now: int, days: int)
    requires 0 <= now
    ensures !(IsSoon(exp, now, days) && IsExpired(exp, now))
    ensures !IsSoon(0, now, days) && !IsExpired(0, now)
  {
  }

  /** A grant the bot writes (`ExpiryFrom(BotStart(arg, now), days)`, with
      a start after the epoch and at least one day) shows `days` days left
      at its start; from its start on it is in the reminder window of `w`
      days exactly during the last `w` days before it ends, it is in the
      expired window exactly from its expiry on, and never in both. */
  lemma GrantLifecycle(arg: StartArg, now: int, days: int, w: int, t: int)
    requires 0 <= BotStart(arg, now) && days >= 1
    ensures var start := BotStart(arg, now);
      var exp := ExpiryFrom(start, days);
      && HumanLeft(exp, start) == Left(LocalDay(start) + days, days)
      && (IsExpired(exp, t) <==> exp <= t)
      && (start <= t ==> (IsSoon(exp, t, w) <==> exp - w * DAY <= t < exp))
      && !(IsSoon(exp, t, w) && IsExpired(exp, t))
  {
    var start := BotStart(arg, now);
    assert ExpiryFrom(start, days) >= start + DAY;
    LeftAfterWholeDays(start, days);
  }

  // -------------------------------------------------------------- the store

  class Store {
    /** `users`, keyed by user_id. */
    var users: map<int, UserRow>
    /** `user_groups`: expiry keyed by (user_id, group_id). */
    var extras: map<(int, int), int>
    /** `payments`, keyed by id. */
    var payments: map<int, Payment>
    /** The next id AUTOINCREMENT hands out: above every id ever used. */
    var nextPaymentId: int

    ghost predicate Valid()
      reads this
    {
      1 <= nextPaymentId && forall pid :: pid in payments ==> 1 <= pid < nextPaymentId
    }

    constructor ()
      ensures Valid()
      ensures users == map[] && extras == map[] && payments == map[]
    {
      users := map[];
      extras := map[];
      payments := map[];
      nextPaymentId := 1;
    }

    /** `SELECT id, user_id, status FROM payments WHERE id=?`. */
    function PaymentOf(pid: int): (r: Option<Payment>)
      reads this
      ensures r.Some? <==> pid in payments
      ensures r.Some? ==> r.value == payments[pid]
    {
      if pid in payments then Some(payments[pid]) else None
    }

    /** `SELECT … FROM users WHERE user_id=?`. */
    function UserOf(uid: int): (r: Option<UserRow>)
      reads this
      ensures r.Some? <==> uid in users
      ensures r.Some? ==> r.value == users[uid]
    {
      if uid in users then Some(users[uid]) else None
    }

    /** `add_payment`: a new pending row under a fresh id. */
    method AddPayment(uid: int, photoFile: string, now: int) returns (pid: int)
      requires Valid()
      modifies this
      ensures Valid()
      ensures pid !in old(payments) && pid >= 1
      ensures pid == old(nextPaymentId) && nextPaymentId == old(nextPaymentId) + 1
      ensures payments == old(payments)[pid := Payment(uid, photoFile, Pending, now, None)]
      ensures users == old(users) && extras == old(extras)
    {
      pid := nextPaymentId;
      payments := payments[pid := Payment(uid, photoFile, Pending, now, None)];
      nextPaymentId := nextPaymentId + 1;
    }

    /** The migration's `INSERT INTO payments(…)`: the row as given under
        the next id. */
    method InsertPayment(p: Payment) returns (pid: int)
      requires Valid()
      modifies this
      ensures Valid()
      ensures pid == old(nextPaymentId) && nextPaymentId == pid + 1 && pid !in old(payments)
      ensures payments == old(payments)[pid := p]
      ensures users == old(users) && extras == old(extras)
    {
      pid := nextPaymentId;
      payments := payments[pid := p];
      nextPaymentId := nextPaymentId + 1;
    }

    /** The migration's user upsert (see `Replaced`). */
    method ReplaceUser(uid: int, username: Option<string>, fullName: Option<string>, groupId: Option<int>,
                       expiresAt: int, phone: Option<string>, agreedAt: Option<int>)
      requires Valid()
      modifies this
      ensures Valid()
      ensures users == old(users)[uid := Replaced(old(UserOf(uid)), username, fullName, groupId, expiresAt, phone, agreedAt)]
      ensures extras == old(extras) && payments == old(payments) && nextPaymentId == old(nextPaymentId)
    {
      users := users[uid := Replaced(UserOf(uid), username, fullName, groupId, expiresAt, phone, agreedAt)];
    }

    /** `UPDATE payments SET status=?, admin_id=? WHERE id=?`: no status check,
        and nothing happens for an unknown id. */
    method SetPaymentStatus(pid: int, status: Status, adminId: Option<int>)
      requires Valid()
      modifies this
      ensures Valid()
      ensures payments == if pid in old(payments)
        then old(payments)[pid := old(payments)[pid].(status := status, adminId := adminId)]
        else old(payments)
      ensures users == old(users) && extras == old(extras) && nextPaymentId == old(nextPaymentId)
    {
      if pid in payments {
        payments := payments[pid := payments[pid].(status := status, adminId := adminId)];
      }
    }

    /** `upsert_user`. */
    method UpsertUser(uid: int, username: string, fullName: string, groupId: int, expiresAt: int,
                      phone: Option<string>, agreedAt: Option<int>)
      requires Valid()
      modifies this
      ensures Valid()
      ensures users == old(users)[uid := Upserted(old(UserOf(uid)), username, fullName, groupId, expiresAt, phone, agreedAt)]
      ensures extras == old(extras) && payments == old(payments) && nextPaymentId == old(nextPaymentId)
    {
      users := users[uid := Upserted(UserOf(uid), username, fullName, groupId, expiresAt, phone, agreedAt)];
    }

    /** The registration upsert (see `Registered`). */
    method Register(uid: int, username: Option<string>, fullName: string, agreedAt: Option<int>)
      requires Valid()
      modifies this
      ensures Valid()
      ensures users == old(users)[uid := Registered(old(UserOf(uid)), username, fullName, agreedAt)]
      ensures extras == old(extras) && payments == old(payments) && nextPaymentId == old(nextPaymentId)
    {
      users := users[uid := Registered(UserOf(uid), username, fullName, agreedAt)];
    }

    /** `update_user_expiry`, `update_user_phone`, `update_user_fullname`,
        `update_user_agreed` and the HTTP service's single-column updates:
        only an existing row changes; a missing row stays missing. */
    method UpdateUser(uid: int, c: Change)
      requires Valid()
      modifies this
      ensures Valid()
      ensures users == if uid in old(users) then old(users)[uid := Apply(old(users)[uid], c)] else old(users)
      ensures extras == old(extras) && payments == old(payments) && nextPaymentId == old(nextPaymentId)
    {
      if uid in users {
        users := users[uid := Apply(users[uid], c)];
      }
    }

    /** `clear_user_group`. */
    method ClearUserGroup(uid: int, gid: int)
      requires Valid()
      modifies this
      ensures Valid()
      ensures users == if uid in old(users) then old(users)[uid := ClearedIfEqual(old(users)[uid], gid)] else old(users)
      ensures extras == old(extras) && payments == old(payments) && nextPaymentId == old(nextPaymentId)
    {
      if uid in users {
        users := users[uid := ClearedIfEqual(users[uid], gid)];
      }
    }

    /** `add_user_group`: upsert by (user_id, group_id), the expiry overwritten. */
    method AddUserGroup(uid: int, gid: int, expiresAt: int)
      requires Valid()
      modifies this
      ensures Valid()
      ensures extras == old(extras)[(uid, gid) := expiresAt]
      ensures users == old(users) && payments == old(payments) && nextPaymentId == old(nextPaymentId)
    {
      extras := extras[(uid, gid) := expiresAt];
    }

    /** `clear_user_group_extra`: delete by key. */
    method ClearUserGroupExtra(uid: int, gid: int)
      requires Valid()
      modifies this
      ensures Valid()
      ensures extras == old(extras) - {(uid, gid)}
      ensures users == old(users) && payments == old(payments) && nextPaymentId == old(nextPaymentId)
    {
      extras := extras - {(uid, gid)};
    }

    // ------------------------------------------------------------ queries

    function PrimaryRows(): set<ExpiryRow>
      reads this
    {
      set uid | uid in users :: ExpiryRow(uid, users[uid].groupId, users[uid].expiresAt)
    }

    function ExtraRows(): set<ExpiryRow>
      reads this
    {
      set k | k in extras :: ExpiryRow(k.0, Some(k.1), extras[k])
    }

    /** `soon_expiring_users(days)`. */
    function SoonUsers(now: int, days: int): set<ExpiryRow>
      reads this
    {
      set r | r in PrimaryRows() && IsSoon(r.expiresAt, now, days)
    }

    /** `soon_expiring_user_groups(days)`. */
    function SoonExtras(now: int, days: int): set<ExpiryRow>
      reads this
    {
      set r | r in ExtraRows() && IsSoon(r.expiresAt, now, days)
    }

    /** `expired_users()`. */
    function ExpiredUsers(now: int): set<ExpiryRow>
      reads this
    {
      set r | r in PrimaryRows() && IsExpired(r.expiresAt, now)
    }

    /** `expired_user_groups()`. */
    function ExpiredExtras(now: int): set<ExpiryRow>
      reads this
    {
      set r | r in ExtraRows() && IsExpired(r.expiresAt, now)
    }

    /** The four queries return exactly the rows in their window: a `users`
        row is reported with its (possibly NULL) group, a `user_groups` row
        with its group; soon and expired never share a row, and a row with
        expiry 0 is in none of them. */
    lemma QueriesSpec(now: int, days: int)
      requires 0 <= now
      ensures forall uid :: uid in users ==>
        (IsSoon(users[uid].expiresAt, now, days) <==> ExpiryRow(uid, users[uid].groupId, users[uid].expiresAt) in SoonUsers(now, days))
      ensures forall uid :: uid in users ==>
        (IsExpired(users[uid].expiresAt, now) <==> ExpiryRow(uid, users[uid].groupId, users[uid].expiresAt) in ExpiredUsers(now))
      ensures forall r :: r in SoonUsers(now, days) + ExpiredUsers(now) ==>
        r.uid in users && r == ExpiryRow(r.uid, users[r.uid].groupId, users[r.uid].expiresAt)
      ensures forall k :: k in extras ==>
        (IsSoon(extras[k], now, days) <==> ExpiryRow(k.0, Some(k.1), extras[k]) in SoonExtras(now, days))
      ensures forall k :: k in extras ==>
        (IsExpired(extras[k], now) <==> ExpiryRow(k.0, Some(k.1), extras[k]) in ExpiredExtras(now))
      ensures forall r :: r in SoonExtras(now, days) + ExpiredExtras(now) ==>
        r.gid.Some? && (r.uid, r.gid.value) in extras && r.expiresAt == extras[(r.uid, r.gid.value)]
      ensures SoonUsers(now, days) !! ExpiredUsers(now)
      ensures SoonExtras(now, days) !! ExpiredExtras(now)
      ensures forall r :: r in SoonUsers(now, days) + ExpiredUsers(now) + SoonExtras(now, days) + ExpiredExtras(now) ==> r.expiresAt != 0
    {
      forall uid | uid in users
        ensures ExpiryRow(uid, users[uid].groupId, users[uid].expiresAt) in PrimaryRows()
      {
      }
      forall k: (int, int) | k in extras
        ensures ExpiryRow(k.0, Some(k.1), extras[k]) in ExtraRows()
      {
      }
    }

    // --------------------------------------------- all_members_of_group

    /** The uids whose primary grant is `gid` (the first SELECT). */
    function PrimaryIds(gid: int): set<int>
      reads this
    {
      set uid | uid in users && users[uid].groupId == Some(gid)
    }

    /** The uids with an extra grant in `gid` (the second SELECT). */
    function ExtraIds(gid: int): set<int>
      reads this
    {
      set k | k in extras && k.1 == gid :: k.0
    }

    function PrimaryRow(uid: int): MemberRow
      reads this
      requires uid in users
    {
      MemberRow(users[uid].username, users[uid].fullName, users[uid].expiresAt, users[uid].phone)
    }

    /** The `LEFT JOIN users`: a user_groups row without a users row has NULL names and phone. */
    function ExtraRow(uid: int, gid: int): MemberRow
      reads this
      requires (uid, gid) in extras
    {
      if uid in users then MemberRow(users[uid].username, users[uid].fullName, extras[(uid, gid)], users[uid].phone)
      else MemberRow(None, None, extras[(uid, gid)], None)
    }

    /** One step of the merge loop: a row replaces the stored one only when
        the uid is new or the row's expiry is strictly larger. */
    static function Keep(merged: map<int, MemberRow>, uid: int, row: MemberRow): map<int, MemberRow> {
      if uid !in merged || merged[uid].expiresAt < row.expiresAt then merged[uid := row] else merged
    }

    /** The merged row per uid: the primary row unless the extra grant in
        this group expires strictly later. */
    function MergedRow(uid: int, gid: int): MemberRow
      reads this
      requires uid in PrimaryIds(gid) || uid in ExtraIds(gid)
    {
      if uid in PrimaryIds(gid) && (uid !in ExtraIds(gid) || extras[(uid, gid)] <= users[uid].expiresAt)
      then PrimaryRow(uid)
      else
        assert (uid, gid) in extras;
        ExtraRow(uid, gid)
    }

    function Members(gid: int): map<int, MemberRow>
      reads this
    {
      map uid | uid in PrimaryIds(gid) + ExtraIds(gid) :: MergedRow(uid, gid)
    }

    /** One row per member with the largest of its expiries in the group;
        the primary row wins a tie. */
    lemma MembersSpec(gid: int)
      ensures Members(gid).Keys == PrimaryIds(gid) + ExtraIds(gid)
      ensures forall uid :: uid in PrimaryIds(gid) ==> Members(gid)[uid].expiresAt >= users[uid].expiresAt
      ensures forall uid :: uid in ExtraIds(gid) ==> (uid, gid) in extras && Members(gid)[uid].expiresAt >= extras[(uid, gid)]
      ensures forall uid :: uid in Members(gid) ==>
        (uid in PrimaryIds(gid) && Members(gid)[uid] == PrimaryRow(uid)) ||
        (uid in ExtraIds(gid) && Members(gid)[uid] == ExtraRow(uid, gid))
      ensures forall uid :: uid in PrimaryIds(gid) && uid in ExtraIds(gid) && extras[(uid, gid)] == users[uid].expiresAt ==>
        Members(gid)[uid] == PrimaryRow(uid)
    {
      forall uid | uid in ExtraIds(gid) ensures (uid, gid) in extras {
        var k :| k in extras && k.1 == gid && k.0 == uid;
      }
    }

    lemma ExtraIdsKeyed(gid: int)
      ensures forall uid :: uid in ExtraIds(gid) ==> (uid, gid) in extras
    {
      forall uid | uid in ExtraIds(gid) ensures (uid, gid) in extras {
        var k :| k in extras && k.1 == gid && k.0 == uid;
      }
    }

    /** `all_members_of_group`: the users rows, then the user_groups rows,
        folded with `Keep`. */
    method AllMembersOfGroup(gid: int) returns (merged: map<int, MemberRow>)
      ensures merged == Members(gid)
    {
      merged := map[];
      var todo := PrimaryIds(gid);
      while todo != {}
        invariant todo <= PrimaryIds(gid)
        invariant merged.Keys == PrimaryIds(gid) - todo
        invariant forall uid :: uid in merged ==> merged[uid] == PrimaryRow(uid)
        decreases todo
      {
        ghost var w := Pick(todo);
        var uid :| uid in todo;
        merged := Keep(merged, uid, PrimaryRow(uid));
        todo := todo - {uid};
      }
      ExtraIdsKeyed(gid);
      var rest := ExtraIds(gid);
      while rest != {}
        invariant rest <= ExtraIds(gid)
        invariant merged.Keys == PrimaryIds(gid) + (ExtraIds(gid) - rest)
        invariant forall uid :: uid in merged ==>
          merged[uid] == if uid in ExtraIds(gid) - rest then MergedRow(uid, gid) else PrimaryRow(uid)
        decreases rest
      {
        ghost var w := Pick(rest);
        var uid :| uid in rest;
        merged := Keep(merged, uid, ExtraRow(uid, gid));
        rest := rest - {uid};
      }
    }
  }
}
