/** The HTTP service's admin routes: statistics, approving and rejecting a
    payment, and the configured group list. Every route first requires the
    authenticated user to be in `ADMIN_IDS`, which the module reads from the
    environment when it is imported, with the same comma-separated id
    parser as the bot. */
module AdminApi {
  import opened Common
  import opened Text
  import opened IdList
  import opened Store
  import opened Timing
  import opened Auth
  import Approval

  const AdminRequired: string := "Admin access required"
  const ServerError: string := "Internal Server Error"

  /** `ADMIN_IDS` as the module computes it at import: the reader as written
      runs at module level, so a piece it raises on stops the import and the
      service has no admin routes at all (`None`). When the import succeeds
      the list is the one the corrected reader gives. */
  function ServiceAdmins(rawAdmins: string): (r: Option<seq<int>>)
    ensures r.None? <==> ParseAsWritten(rawAdmins).ValueError?
    ensures r.Some? ==> r.value == Parse(rawAdmins)
  {
    match ParseAsWritten(rawAdmins)
    case ValueError(_) => None
    case Ids(ids) =>
      ParseAgrees(rawAdmins);
      Some(ids)
  }

  /** ADMIN_IDS="--5" stops the import of the admin routes. */
  lemma AdminImportFails()
    ensures ServiceAdmins("--5") == None
  {
    DoubleMinusCrashes();
  }

  /** `require_admin`: 403 unless the user's id is one of `admins`, the
      `ADMIN_IDS` list the module computed (`ServiceAdmins`); a user without
      an id is never an admin. */
  function RequireAdmin(admins: seq<int>, user: TgUser): (r: Reply<int>)
    ensures r.Ok? <==> user.userId.Some? && user.userId.value in admins
    ensures r.Ok? ==> r.value == user.userId.value
    ensures r.Fail? ==> r == Fail(403, AdminRequired)
  {
    if user.userId.Some? && user.userId.value in admins then Ok(user.userId.value)
    else Fail(403, AdminRequired)
  }

  // ---------------------------------------------------------------- stats

  datatype StatsReply = StatsReply(totalUsers: int, activeUsers: int, expiredUsers: int,
                         pendingPayments: int, approvedPayments: int)

  /** `expires_at > now AND group_id > 0`, as written. */
  function LiveMainAsWritten(users: map<int, UserRow>, now: int): set<int> {
    set uid | uid in users && users[uid].expiresAt > now && users[uid].groupId.Some? && users[uid].groupId.value > 0
  }

  /** A primary grant that is still running: a group is set (not NULL and
      not the "no group" value 0) and the expiry is in the future. */
  predicate LiveMain(r: UserRow, now: int) {
    r.expiresAt > now && r.groupId.Some? && r.groupId.value != 0
  }

  function LiveMainUsers(users: map<int, UserRow>, now: int): set<int> {
    set uid | uid in users && LiveMain(users[uid], now)
  }

  /** `COUNT(DISTINCT user_id) FROM user_groups WHERE expires_at > now`. */
  function LiveExtraUsers(extras: map<(int, int), int>, now: int): set<int> {
    set k | k in extras && extras[k] > now :: k.0
  }

  function PaymentsIn(payments: map<int, Payment>, status: Status): set<int> {
    set pid | pid in payments && payments[pid].status == status
  }

  function Max(a: int, b: int): int {
    if a >= b then a else b
  }

  /** `get_stats` as written: the active figure is the larger of the two
      counts, and expired users are all users minus that figure. */
  function StatsAsWritten(users: map<int, UserRow>, extras: map<(int, int), int>, payments: map<int, Payment>,
                          now: int): (s: StatsReply)
    ensures s.totalUsers == |users|
    ensures s.activeUsers >= |LiveMainAsWritten(users, now)| && s.activeUsers >= |LiveExtraUsers(extras, now)|
    ensures s.activeUsers == |LiveMainAsWritten(users, now)| || s.activeUsers == |LiveExtraUsers(extras, now)|
    ensures s.totalUsers == s.activeUsers + s.expiredUsers
    ensures s.pendingPayments == |PaymentsIn(payments, Pending)| && s.approvedPayments == |PaymentsIn(payments, Approved)|
    ensures s.pendingPayments + s.approvedPayments <= |payments|
  {
    var pend, appr := PaymentsIn(payments, Pending), PaymentsIn(payments, Approved);
    SubsetCard(pend + appr, payments.Keys);
    var active := Max(|LiveMainAsWritten(users, now)|, |LiveExtraUsers(extras, now)|);
    StatsReply(|users|, active, |users| - active, |pend|, |appr|)
  }

  /** Telegram group ids are negative, so a primary grant the bot or this
      service writes is never counted by the `group_id > 0` test. */
  lemma TelegramGroupsNotCounted(users: map<int, UserRow>, now: int)
    requires forall uid :: uid in users ==> users[uid].groupId.None? || users[uid].groupId.value <= 0
    ensures LiveMainAsWritten(users, now) == {}
  {
    if LiveMainAsWritten(users, now) != {} {
      var u := Pick(LiveMainAsWritten(users, now));
      assert false;
    }
  }

  /** One member with a running grant in group -1001 and nothing in
      `user_groups`: reported as 0 active and 1 expired. */
  lemma NegativeGroupNotCounted(now: int)
    ensures var users := map[7 := UserRow(None, None, Some(-1001), now + DAY, None, None, None)];
      var s := StatsAsWritten(users, map[], map[], now);
      s.activeUsers == 0 && s.expiredUsers == 1 && Stats(users, map[], map[], now).activeUsers == 1
  {
    var users := map[7 := UserRow(None, None, Some(-1001), now + DAY, None, None, None)];
    TelegramGroupsNotCounted(users, now);
    assert LiveExtraUsers(map[], now) == {};
    assert LiveMainUsers(users, now) == {7};
  }

  /** User 1 runs only a primary grant and user 2 only an extra one: two
      active users, reported as one. */
  lemma MaxUndercounts(now: int)
    ensures var users := map[1 := UserRow(None, None, Some(5), now + DAY, None, None, None),
                             2 := UserRow(None, None, Some(0), 0, None, None, None)];
      var extras := map[(2, 7) := now + DAY];
      StatsAsWritten(users, extras, map[], now).activeUsers == 1 && Stats(users, extras, map[], now).activeUsers == 2
  {
    var users := map[1 := UserRow(None, None, Some(5), now + DAY, None, None, None),
                     2 := UserRow(None, None, Some(0), 0, None, None, None)];
    var extras := map[(2, 7) := now + DAY];
    assert LiveMainAsWritten(users, now) == {1} by {
      forall u | u in LiveMainAsWritten(users, now) ensures u == 1 {
      }
      assert 1 in LiveMainAsWritten(users, now);
    }
    assert LiveExtraUsers(extras, now) == {2} by {
      forall u | u in LiveExtraUsers(extras, now) ensures u == 2 {
      }
      assert (2, 7) in extras;
    }
    assert ActiveUsers(users, extras, now) == {1, 2} by {
      assert LiveMainUsers(users, now) == {1} by {
        forall u | u in LiveMainUsers(users, now) ensures u == 1 {
        }
        assert 1 in LiveMainUsers(users, now);
      }
      assert users.Keys == {1, 2};
    }
  }

  /** A `user_groups` row of a user who never registered makes the expired
      figure negative. */
  lemma ExpiredGoesNegative(now: int)
    ensures StatsAsWritten(map[], map[(5, 7) := now + DAY], map[], now).expiredUsers == -1
  {
    var extras := map[(5, 7) := now + DAY];
    assert LiveExtraUsers(extras, now) == {5} by {
      assert (5, 7) in extras;
    }
    assert LiveMainAsWritten(map[], now) == {};
  }

  /** The registered users with a running grant, primary or extra. */
  function ActiveUsers(users: map<int, UserRow>, extras: map<(int, int), int>, now: int): (a: set<int>)
    ensures a <= users.Keys
    ensures LiveMainUsers(users, now) <= a
    ensures forall uid :: uid in users && uid in LiveExtraUsers(extras, now) ==> uid in a
    ensures forall uid :: uid in a ==> uid in LiveMainUsers(users, now) || uid in LiveExtraUsers(extras, now)
  {
    (LiveMainUsers(users, now) + LiveExtraUsers(extras, now)) * users.Keys
  }

  /** `get_stats` counting each registered user once: active when either
      kind of grant is running, expired otherwise. */
  function Stats(users: map<int, UserRow>, extras: map<(int, int), int>, payments: map<int, Payment>,
                 now: int): (s: StatsReply)
    ensures s.totalUsers == |users|
    ensures s.activeUsers == |ActiveUsers(users, extras, now)|
    ensures 0 <= s.expiredUsers && s.totalUsers == s.activeUsers + s.expiredUsers
    ensures s.activeUsers >= |LiveMainUsers(users, now)|
    ensures s.pendingPayments == |PaymentsIn(payments, Pending)| && s.approvedPayments == |PaymentsIn(payments, Approved)|
    ensures s.pendingPayments + s.approvedPayments <= |payments|
  {
    var pend, appr := PaymentsIn(payments, Pending), PaymentsIn(payments, Approved);
    SubsetCard(pend + appr, payments.Keys);
    var active := ActiveUsers(users, extras, now);
    SubsetCard(active, users.Keys);
    SubsetCard(LiveMainUsers(users, now), active);
    StatsReply(|users|, |active|, |users| - |active|, |pend|, |appr|)
  }

  /** When every `user_groups` row belongs to a registered user the
      corrected figure is never below the one reported as written. */
  lemma StatsNeverUndercount(users: map<int, UserRow>, extras: map<(int, int), int>, payments: map<int, Payment>,
                             now: int)
    requires forall k :: k in extras ==> k.0 in users
    ensures Stats(users, extras, payments, now).activeUsers >= StatsAsWritten(users, extras, payments, now).activeUsers
  {
    var active := ActiveUsers(users, extras, now);
    forall u | u in LiveMainAsWritten(users, now) ensures u in active {
      assert u in LiveMainUsers(users, now);
    }
    SubsetCard(LiveMainAsWritten(users, now), active);
    forall u | u in LiveExtraUsers(extras, now) ensures u in active {
      var k :| k in extras && extras[k] > now && k.0 == u;
    }
    SubsetCard(LiveExtraUsers(extras, now), active);
  }

  /** The `/stats` route: 403 for a non-admin, otherwise the figures as
      written (see `StatsAsWritten`). */
  function GetStats(admins: seq<int>, user: TgUser, users: map<int, UserRow>, extras: map<(int, int), int>,
                    payments: map<int, Payment>, now: int): (r: Reply<StatsReply>)
    ensures r.Fail? <==> RequireAdmin(admins, user).Fail?
    ensures r.Fail? ==> r == Fail(403, AdminRequired)
    ensures r.Ok? ==> r.value == StatsAsWritten(users, extras, payments, now)
  {
    match RequireAdmin(admins, user)
    case Fail(code, detail) => Fail(code, detail)
    case Ok(_) => Ok(StatsAsWritten(users, extras, payments, now))
  }

  /** What an admin is shown for the running grant in group -1001: no
      active user and one expired. */
  lemma StatsRouteMissesGrant(admins: seq<int>, user: TgUser, now: int)
    requires RequireAdmin(admins, user).Ok?
    ensures var users := map[7 := UserRow(None, None, Some(-1001), now + DAY, None, None, None)];
      var r := GetStats(admins, user, users, map[], map[], now);
      r.Ok? && r.value.activeUsers == 0 && r.value.expiredUsers == 1
  {
    NegativeGroupNotCounted(now);
  }

  // ------------------------------------------------------ approve and reject

  datatype Grant = Grant(userId: int, expiresAt: int)

  /** `approve_payment`. A start date that `fromisoformat` rejects ends the
      request with a server error before anything is written; an unknown
      payment is 404. Otherwise the payment becomes approved by this admin,
      whatever its status was, and the grant runs `days` days from the
      start (the clock when no start date is given): a single group id
      becomes the primary grant of an existing user row, any other number
      of ids (none included) goes to `user_groups`. */
  method ApprovePayment(admins: seq<int>, st: Store, user: TgUser, pid: int, groupIds: seq<int>,
                        start: StartArg, now: int, days: int) returns (r: Reply<Grant>)
    requires st.Valid()
    modifies st
    ensures st.Valid()
    ensures r.Fail? ==> unchanged(st)
    ensures RequireAdmin(admins, user).Fail? ==> r == Fail(403, AdminRequired)
    ensures RequireAdmin(admins, user).Ok? && start.Unparsable? ==> r == Fail(500, ServerError)
    ensures RequireAdmin(admins, user).Ok? && !start.Unparsable? && pid !in old(st.payments) ==>
      r == Fail(404, "Payment not found")
    ensures r.Ok? <==> RequireAdmin(admins, user).Ok? && !start.Unparsable? && pid in old(st.payments)
    ensures r.Ok? ==>
      var uid := old(st.payments[pid].userId);
      var exp := ExpiryFrom(BotStart(start, now), days);
      && r.value == Grant(uid, exp)
      && st.payments == old(st.payments)[pid := old(st.payments[pid]).(status := Approved, adminId := user.userId)]
      && (|groupIds| == 1 ==>
            && st.users == (if uid in old(st.users) then old(st.users)[uid := Apply(old(st.users)[uid], SetGrant(groupIds[0], exp))]
                            else old(st.users))
            && st.extras == old(st.extras))
      && (|groupIds| != 1 ==>
            && st.users == old(st.users)
            && st.extras == Approval.Granted(old(st.extras), uid, Approval.Elems(groupIds), exp))
  {
    var admin := RequireAdmin(admins, user);
    if admin.Fail? {
      return Fail(403, AdminRequired);
    }
    if start.Unparsable? {
      return Fail(500, ServerError);
    }
    var exp := ExpiryFrom(BotStart(start, now), days);
    if pid !in st.payments {
      return Fail(404, "Payment not found");
    }
    var uid := st.payments[pid].userId;
    st.SetPaymentStatus(pid, Approved, Some(admin.value));
    if |groupIds| == 1 {
      st.UpdateUser(uid, SetGrant(groupIds[0], exp));
    } else {
      Approval.GrantExtras(st, uid, groupIds, exp);
    }
    r := Ok(Grant(uid, exp));
  }

  /** `reject_payment`: no existence or status check; an unknown id changes
      nothing and still reports success. */
  method RejectPayment(admins: seq<int>, st: Store, user: TgUser, pid: int) returns (r: Reply<bool>)
    requires st.Valid()
    modifies st
    ensures st.Valid()
    ensures r.Fail? <==> RequireAdmin(admins, user).Fail?
    ensures r.Fail? ==> r == Fail(403, AdminRequired) && unchanged(st)
    ensures r.Ok? ==>
      && st.payments == (if pid in old(st.payments)
                         then old(st.payments)[pid := old(st.payments[pid]).(status := Rejected, adminId := user.userId)]
                         else old(st.payments))
      && st.users == old(st.users) && st.extras == old(st.extras)
  {
    var admin := RequireAdmin(admins, user);
    if admin.Fail? {
      return Fail(403, AdminRequired);
    }
    st.SetPaymentStatus(pid, Rejected, Some(admin.value));
    r := Ok(true);
  }

  // ---------------------------------------------------------------- groups

  datatype GroupEntry = GroupEntry(id: int, name: string)

  /** `get_groups`: the configured group ids are read inside the request
      with the reader as written, so a piece it raises on answers 500;
      otherwise every id, in order, named "Group <id>", which are the ids
      the corrected reader gives. */
  function GetGroups(admins: seq<int>, user: TgUser, rawGroups: string): (r: Reply<seq<GroupEntry>>)
    ensures RequireAdmin(admins, user).Fail? ==> r == Fail(403, AdminRequired)
    ensures RequireAdmin(admins, user).Ok? && ParseAsWritten(rawGroups).ValueError? ==> r == Fail(500, ServerError)
    ensures r.Ok? <==> RequireAdmin(admins, user).Ok? && ParseAsWritten(rawGroups).Ids?
    ensures r.Ok? ==> |r.value| == |Parse(rawGroups)| && forall i :: 0 <= i < |r.value| ==>
      r.value[i] == GroupEntry(Parse(rawGroups)[i], "Group " + IntToString(Parse(rawGroups)[i]))
  {
    if RequireAdmin(admins, user).Fail? then Fail(403, AdminRequired)
    else
      match ParseAsWritten(rawGroups)
      case ValueError(_) => Fail(500, ServerError)
      case Ids(ids) =>
        ParseAgrees(rawGroups);
        Ok(seq(|ids|, i requires 0 <= i < |ids| => GroupEntry(ids[i], "Group " + IntToString(ids[i]))))
  }

  /** PRIVATE_GROUP_ID="--5" makes the route answer 500 to an admin. */
  lemma GroupsCrash(admins: seq<int>, user: TgUser)
    requires RequireAdmin(admins, user).Ok?
    ensures GetGroups(admins, user, "--5") == Fail(500, ServerError)
  {
    DoubleMinusCrashes();
  }

  /** `get_groups` on the corrected reader: never a server error, and the
      same answer as the route wherever the route does not raise. */
  function GetGroupsCorrected(admins: seq<int>, user: TgUser, rawGroups: string): (r: Reply<seq<GroupEntry>>)
    ensures r.Fail? <==> RequireAdmin(admins, user).Fail?
    ensures r.Fail? ==> r == Fail(403, AdminRequired)
    ensures r.Ok? ==> |r.value| == |Parse(rawGroups)| && forall i :: 0 <= i < |r.value| ==>
      r.value[i] == GroupEntry(Parse(rawGroups)[i], "Group " + IntToString(Parse(rawGroups)[i]))
  {
    if RequireAdmin(admins, user).Fail? then Fail(403, AdminRequired)
    else
      var ids := Parse(rawGroups);
      Ok(seq(|ids|, i requires 0 <= i < |ids| => GroupEntry(ids[i], "Group " + IntToString(ids[i]))))
  }

  /** Wherever the route does not raise, it answers what the corrected
      route answers. */
  lemma GroupsAgree(admins: seq<int>, user: TgUser, rawGroups: string)
    ensures GetGroups(admins, user, rawGroups).Ok? ==>
      GetGroupsCorrected(admins, user, rawGroups) == GetGroups(admins, user, rawGroups)
  {
    var r1 := GetGroups(admins, user, rawGroups);
    var r2 := GetGroupsCorrected(admins, user, rawGroups);
    if r1.Ok? {
      assert r2.Ok?;
      assert |r1.value| == |r2.value|;
      assert forall i :: 0 <= i < |r1.value| ==> r1.value[i] == r2.value[i];
      assert r1.value == r2.value;
    }
  }

  /** With the group ids written out with commas, the route lists exactly
      those groups, in the same order. */
  lemma GroupsRoundTrip(admins: seq<int>, user: TgUser, ids: seq<int>)
    requires RequireAdmin(admins, user).Ok?
    ensures var r := GetGroups(admins, user, Join(Render(ids), ","));
      r.Ok? && |r.value| == |ids| && forall i :: 0 <= i < |ids| ==> r.value[i] == GroupEntry(ids[i], "Group " + IntToString(ids[i]))
  {
    RenderedParsesAsWritten(ids);
    RenderedIdsRoundTrip(ids);
  }
}
