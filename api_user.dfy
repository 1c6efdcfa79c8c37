/** The HTTP service's user routes, called by the Mini App: registration
    after the contract, the course and phone steps, the payment photo, and
    the profile and subscription queries. `uid` is the authenticated
    user's id. */
module UserApi {
  import opened Common
  import opened Text
  import opened Store
  import opened Auth
  import opened Chats
  import Approval

  // ------------------------------------------------------------ register

  /** An optional value inside an f-string: `None` is written as "None". */
  function Shown(o: Option<string>): (s: string)
    ensures o.Some? ==> s == o.value
    ensures o.None? ==> s == "None"
  {
    if o.Some? then o.value else "None"
  }

  /** The full name `register_user` stores, as written: both names through
      an f-string, stripped, and "User<id>" when that is empty. */
  function RegisterNameAsWritten(uid: int, u: TgUser): (name: string)
    ensures name != []
    ensures Strip(Shown(u.firstName) + " " + Shown(u.lastName)) != [] ==>
      name == Strip(Shown(u.firstName) + " " + Shown(u.lastName))
    ensures Strip(Shown(u.firstName) + " " + Shown(u.lastName)) == [] ==> name == "User" + IntToString(uid)
  {
    var n := Strip(Shown(u.firstName) + " " + Shown(u.lastName));
    if n == [] then "User" + IntToString(uid) else n
  }

  /** A Telegram user without a last name is registered as "<first> None". */
  lemma MissingLastNameShown(uid: int, first: string)
    requires first != [] && !IsSpace(first[0]) && !IsSpace(first[|first| - 1])
    ensures RegisterNameAsWritten(uid, TgUser(Some(uid), None, Some(first), None, None)) == first + " None"
  {
    var s := first + " " + "None";
    assert s == first + " None";
    assert s[0] == first[0] && s[|s| - 1] == 'e';
    StripClean(s);
  }

  /** The full name with absent names left out: the first name, a space and
      the last name only when there is one, stripped, and "User<id>" when
      nothing is left. */
  function RegisterName(uid: int, u: TgUser): (name: string)
    ensures name != []
    ensures !Truthy(u.firstName) && !Truthy(u.lastName) ==> name == "User" + IntToString(uid)
  {
    var n := Strip(TextOr(u.firstName, "") + (if Truthy(u.lastName) then " " + u.lastName.value else ""));
    if n == [] then "User" + IntToString(uid) else n
  }

  /** With the corrected rule a user without a last name is registered
      under the first name alone. */
  lemma FirstNameAlone(uid: int, first: string, u: TgUser)
    requires first != [] && !IsSpace(first[0]) && !IsSpace(first[|first| - 1])
    requires u.firstName == Some(first) && !Truthy(u.lastName)
    ensures RegisterName(uid, u) == first
  {
    assert first + "" == first;
    StripClean(first);
  }

  /** `register_user`: insert with no grant, or refresh the names and the
      consent time of an existing row (see `Registered`); the name is the
      f-string one, so an absent last name is stored as "None". */
  method RegisterUser(st: Store, uid: int, u: TgUser, agreedAt: int)
    requires st.Valid()
    modifies st
    ensures st.Valid()
    ensures st.users == old(st.users)[uid := Registered(old(st.UserOf(uid)), u.username, RegisterNameAsWritten(uid, u), Some(agreedAt))]
    ensures st.extras == old(st.extras) && st.payments == old(st.payments)
  {
    st.Register(uid, u.username, RegisterNameAsWritten(uid, u), Some(agreedAt));
  }

  /** Registering again after a payment was approved keeps the grant:
      the row's group and expiry are those it had. */
  lemma RegisterKeepsGrant(r: UserRow, uid: int, u: TgUser, agreedAt: int)
    ensures var n := Registered(Some(r), u.username, RegisterNameAsWritten(uid, u), Some(agreedAt));
      n.groupId == r.groupId && n.expiresAt == r.expiresAt && n.phone == r.phone && n.course == r.course &&
      n.agreedAt == Some(agreedAt)
  {
    RegisteredSpec(Some(r), u.username, RegisterNameAsWritten(uid, u), Some(agreedAt));
  }

  // ------------------------------------------------------ course and phone

  /** `select_course`: `course_name` of an existing row; a missing row stays missing. */
  method SelectCourse(st: Store, uid: int, course: string)
    requires st.Valid()
    modifies st
    ensures st.Valid()
    ensures st.users == if uid in old(st.users) then old(st.users)[uid := old(st.users[uid]).(course := Some(course))] else old(st.users)
    ensures st.extras == old(st.extras) && st.payments == old(st.payments)
  {
    st.UpdateUser(uid, SetCourse(course));
  }

  /** `save_phone`: the phone as sent, with no format check. */
  method SavePhone(st: Store, uid: int, phone: string)
    requires st.Valid()
    modifies st
    ensures st.Valid()
    ensures st.users == if uid in old(st.users) then old(st.users)[uid := old(st.users[uid]).(phone := Some(phone))] else old(st.users)
    ensures st.extras == old(st.extras) && st.payments == old(st.payments)
  {
    st.UpdateUser(uid, SetPhone(phone));
  }

  // ---------------------------------------------------------------- payment

  /** `uploads/<user id>_<unix time>.jpg`. */
  function PhotoPath(uid: int, now: int): (p: string)
    ensures StartsWith(p, "uploads/")
  {
    "uploads/" + IntToString(uid) + "_" + IntToString(now) + ".jpg"
  }

  /** Two uploads share a file name only when they come from the same user
      in the same second. */
  lemma PhotoPathInjective(u1: int, t1: int, u2: int, t2: int)
    requires PhotoPath(u1, t1) == PhotoPath(u2, t2)
    ensures u1 == u2 && t1 == t2
  {
    var a1, b1 := IntToString(u1), IntToString(t1);
    var a2, b2 := IntToString(u2), IntToString(t2);
    var m1 := a1 + "_" + b1;
    var m2 := a2 + "_" + b2;
    var p := PhotoPath(u1, t1);
    assert p == "uploads/" + m1 + ".jpg" && p == "uploads/" + m2 + ".jpg";
    assert |m1| == |m2|;
    assert m1 == p[8..|p| - 4] == m2;
    IntToStringNoUnderscore(u1);
    IntToStringNoUnderscore(u2);
    FirstIndexAfter(a1, '_', b1);
    FirstIndexAfter(a2, '_', b2);
    assert a1 == m1[..|a1|] == m2[..|a2|] == a2;
    assert b1 == m1[|a1| + 1..] == m2[|a2| + 1..] == b2;
    IntToStringInjective(u1, u2);
    IntToStringInjective(t1, t2);
  }

  /** `submit_payment`: the photo is stored under `PhotoPath` and a new
      pending payment row points to it; its fresh id is returned. */
  method SubmitPayment(st: Store, uid: int, now: int) returns (pid: int)
    requires st.Valid()
    modifies st
    ensures st.Valid()
    ensures pid !in old(st.payments)
    ensures st.payments == old(st.payments)[pid := Payment(uid, PhotoPath(uid, now), Pending, now, None)]
    ensures st.users == old(st.users) && st.extras == old(st.extras)
  {
    pid := st.AddPayment(uid, PhotoPath(uid, now), now);
  }

  // ---------------------------------------------------------------- queries

  datatype UserInfo = UserInfo(userId: int, username: Option<string>, fullName: Option<string>, phone: Option<string>,
                               course: Option<string>, agreedAt: Option<int>, expiresAt: int)

  /** `get_user_info`: the stored profile, or 404. */
  function GetUserInfo(users: map<int, UserRow>, uid: int): (r: Reply<UserInfo>)
    ensures r.Ok? <==> uid in users
    ensures r.Fail? ==> r == Fail(404, "User not found")
    ensures r.Ok? ==>
      && r.value.userId == uid && r.value.expiresAt == users[uid].expiresAt
      && r.value.phone == users[uid].phone && r.value.course == users[uid].course
      && r.value.username == users[uid].username && r.value.fullName == users[uid].fullName
      && r.value.agreedAt == users[uid].agreedAt
  {
    if uid !in users then Fail(404, "User not found")
    else
      var row := users[uid];
      Ok(UserInfo(uid, row.username, row.fullName, row.phone, row.course, row.agreedAt, row.expiresAt))
  }

  datatype Subscription = Subscription(isActive: bool, expiresAt: int, groups: map<int, int>)

  /** The user's `user_groups` rows, group id to expiry. */
  function GroupsOf(extras: map<(int, int), int>, uid: int): (g: map<int, int>)
    ensures forall gid :: gid in g <==> (uid, gid) in extras
    ensures forall gid :: gid in g ==> g[gid] == extras[(uid, gid)]
  {
    var keys := set k | k in extras && k.0 == uid :: k.1;
    assert forall gid :: gid in keys <==> (uid, gid) in extras by {
      forall gid | (uid, gid) in extras ensures gid in keys {
        var k := (uid, gid);
        assert k in extras && k.0 == uid;
      }
    }
    map gid | gid in keys :: extras[(uid, gid)]
  }

  /** `get_subscription`: active while the primary grant or any extra grant
      runs; the primary expiry is 0 for an unknown user. */
  function GetSubscription(users: map<int, UserRow>, extras: map<(int, int), int>, uid: int, now: int): (s: Subscription)
    ensures s.isActive <==> (uid in users && users[uid].expiresAt > now) || (exists gid :: (uid, gid) in extras && extras[(uid, gid)] > now)
    ensures s.expiresAt == if uid in users then users[uid].expiresAt else 0
    ensures s.groups == GroupsOf(extras, uid)
  {
    var groups := GroupsOf(extras, uid);
    var active := (uid in users && users[uid].expiresAt > now) || (exists gid :: gid in groups && groups[gid] > now);
    Subscription(active, if uid in users then users[uid].expiresAt else 0, groups)
  }

  /** After an admin approves a payment through the HTTP service with an
      expiry in the future, the paying user's subscription is active: a
      single group needs the user's row to exist, several groups always
      activate it, and an empty group list leaves it as it was. */
  lemma ApprovalActivates(users: map<int, UserRow>, extras: map<(int, int), int>, uid: int,
                          groupIds: seq<int>, exp: int, now: int)
    requires exp > now
    ensures |groupIds| == 1 && uid in users ==>
      GetSubscription(users[uid := Apply(users[uid], SetGrant(groupIds[0], exp))], extras, uid, now).isActive
    ensures |groupIds| > 1 ==>
      GetSubscription(users, Approval.Granted(extras, uid, Approval.Elems(groupIds), exp), uid, now).isActive
    ensures groupIds == [] ==>
      GetSubscription(users, Approval.Granted(extras, uid, Approval.Elems(groupIds), exp), uid, now) ==
      GetSubscription(users, extras, uid, now)
  {
    if |groupIds| > 1 {
      var m := Approval.Granted(extras, uid, Approval.Elems(groupIds), exp);
      assert groupIds[0] in Approval.Elems(groupIds);
      assert (uid, groupIds[0]) in m && m[(uid, groupIds[0])] > now;
      var g := groupIds[0];
      assert (uid, g) in m && m[(uid, g)] > now;
      assert exists gid :: (uid, gid) in m && m[(uid, gid)] > now;
    }
    if groupIds == [] {
      assert Approval.Elems(groupIds) == {};
      Approval.GrantedNone(extras, uid, exp);
    }
  }
}
