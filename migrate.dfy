/** The one-off copy of the bot's SQLite database into the Postgres
    database: users and user_groups rows are upserted, a payment row is
    inserted only when the target holds no payment of the same user at the
    same creation time. The target is a `Store`; the source tables are
    sequences of rows in the order SQLite returns them. */
module Migrate {
  import opened Common
  import opened Store

  /** A source `users` row. `width` is the number of columns the row has:
      databases created before the phone and consent columns were added
      have fewer. */
  datatype OldUser = OldUser(uid: int, username: Option<string>, fullName: Option<string>, groupId: Option<int>,
                             expiresAt: int, phone: Option<string>, agreedAt: Option<int>, width: nat)

  /** A source `payments` row: `(id, user_id, photo_file, status, created_at[, admin_id])`. */
  datatype OldPayment = OldPayment(id: int, userId: int, photoFile: string, status: Status, createdAt: int,
                                   adminId: Option<int>, width: nat)

  /** A source `user_groups` row. */
  datatype OldGroup = OldGroup(uid: int, gid: int, expiresAt: int)

  /** The three source tables. */
  datatype Snapshot = Snapshot(users: seq<OldUser>, payments: seq<OldPayment>, groups: seq<OldGroup>)

  /** `user[5] if len(user) > 5 else None`. */
  function PhoneCell(u: OldUser): (p: Option<string>)
    ensures u.width <= 5 ==> p == None
    ensures u.width > 5 ==> p == u.phone
  {
    if u.width > 5 then u.phone else None
  }

  /** `user[6] if len(user) > 6 else None`. */
  function AgreedCell(u: OldUser): (a: Option<int>)
    ensures u.width <= 6 ==> a == None
    ensures u.width > 6 ==> a == u.agreedAt
  {
    if u.width > 6 then u.agreedAt else None
  }

  /** The target row after the upsert of source row `u` over `o`. */
  function Copied(o: Option<UserRow>, u: OldUser): UserRow {
    Replaced(o, u.username, u.fullName, u.groupId, u.expiresAt, PhoneCell(u), AgreedCell(u))
  }

  /** The payment the insert writes: the source id is dropped and
      `admin_id` is NULL for a short row. */
  function Inserted(p: OldPayment): (r: Payment)
    ensures r.userId == p.userId && r.createdAt == p.createdAt
    ensures r.photoFile == p.photoFile && r.status == p.status
    ensures r.adminId == if p.width > 5 then p.adminId else None
  {
    Payment(p.userId, p.photoFile, p.status, p.createdAt, if p.width > 5 then p.adminId else None)
  }

  function Lookup<K, V>(m: map<K, V>, k: K): Option<V> {
    if k in m then Some(m[k]) else None
  }

  // ------------------------------------------------------------------ users

  /** The `users` table after the first loop has upserted `rows` in order. */
  function UsersAfter(m: map<int, UserRow>, rows: seq<OldUser>): map<int, UserRow>
    decreases |rows|
  {
    if rows == [] then m
    else
      var before := UsersAfter(m, rows[..|rows| - 1]);
      var u := rows[|rows| - 1];
      before[u.uid := Copied(Lookup(before, u.uid), u)]
  }

  /** The last source row of user `uid`, if any. */
  function LastOf(rows: seq<OldUser>, uid: int): (r: Option<OldUser>)
    ensures r.None? <==> forall i :: 0 <= i < |rows| ==> rows[i].uid != uid
    ensures r.Some? ==> r.value.uid == uid && exists i :: 0 <= i < |rows| && rows[i] == r.value
    decreases |rows|
  {
    if rows == [] then None
    else if rows[|rows| - 1].uid == uid then
      assert rows[|rows| - 1] == rows[|rows| - 1];
      Some(rows[|rows| - 1])
    else
      var r := LastOf(rows[..|rows| - 1], uid);
      assert forall i :: 0 <= i < |rows| - 1 ==> rows[..|rows| - 1][i] == rows[i];
      r
  }

  /** Pointwise, the migrated `users` table is the target's row replaced
      by the user's last source row; only `course_name` survives from the
      target, and users absent from the source are untouched. */
  lemma {:induction false} UsersAfterAt(m: map<int, UserRow>, rows: seq<OldUser>, uid: int)
    ensures LastOf(rows, uid).None? ==> Lookup(UsersAfter(m, rows), uid) == Lookup(m, uid)
    ensures LastOf(rows, uid).Some? ==> Lookup(UsersAfter(m, rows), uid) == Some(Copied(Lookup(m, uid), LastOf(rows, uid).value))
    decreases |rows|
  {
    if rows != [] {
      var front := rows[..|rows| - 1];
      var u := rows[|rows| - 1];
      UsersAfterAt(m, front, uid);
      if u.uid == uid && LastOf(front, uid).Some? {
        var w := LastOf(front, uid).value;
        var o := Lookup(m, uid);
        ReplacedTwice(o, u.username, u.fullName, u.groupId, u.expiresAt, PhoneCell(u), AgreedCell(u), Copied(o, w));
      }
    }
  }

  /** Two maps that agree on every lookup are equal. */
  lemma LookupExtensional<K, V>(a: map<K, V>, b: map<K, V>)
    requires forall k :: Lookup(a, k) == Lookup(b, k)
    ensures a == b
  {
    assert forall k :: k in a <==> k in b by {
      forall k ensures k in a <==> k in b {
        assert Lookup(a, k).Some? <==> Lookup(b, k).Some?;
      }
    }
    forall k | k in a ensures a[k] == b[k] {
      assert Lookup(a, k) == Lookup(b, k);
    }
  }

  /** Copying the same users a second time changes nothing. */
  lemma UsersIdempotent(m: map<int, UserRow>, rows: seq<OldUser>)
    ensures UsersAfter(UsersAfter(m, rows), rows) == UsersAfter(m, rows)
  {
    var once := UsersAfter(m, rows);
    forall uid ensures Lookup(UsersAfter(once, rows), uid) == Lookup(once, uid) {
      UsersAfterAt(m, rows, uid);
      UsersAfterAt(once, rows, uid);
      if LastOf(rows, uid).Some? {
        var u := LastOf(rows, uid).value;
        var o := Lookup(m, uid);
        ReplacedTwice(o, u.username, u.fullName, u.groupId, u.expiresAt, PhoneCell(u), AgreedCell(u), Copied(o, u));
      }
    }
    LookupExtensional(UsersAfter(once, rows), once);
  }

  // ------------------------------------------------------------ user_groups

  /** The `user_groups` table after the third loop: each source row
      overwrites the expiry under its (user, group) key. */
  function GroupsAfter(m: map<(int, int), int>, gs: seq<OldGroup>): map<(int, int), int>
    decreases |gs|
  {
    if gs == [] then m
    else
      var g := gs[|gs| - 1];
      GroupsAfter(m, gs[..|gs| - 1])[(g.uid, g.gid) := g.expiresAt]
  }

  /** The third loop lays the source rows over the target: keys only in
      the target keep their expiry, every other key takes the last source
      expiry. */
  lemma {:induction false} GroupsOverlay(m: map<(int, int), int>, gs: seq<OldGroup>)
    ensures GroupsAfter(m, gs) == m + GroupsAfter(map[], gs)
    decreases |gs|
  {
    if gs != [] {
      GroupsOverlay(m, gs[..|gs| - 1]);
    }
  }

  /** Copying the same user_groups a second time changes nothing. */
  lemma GroupsIdempotent(m: map<(int, int), int>, gs: seq<OldGroup>)
    ensures GroupsAfter(GroupsAfter(m, gs), gs) == GroupsAfter(m, gs)
  {
    var g := GroupsAfter(map[], gs);
    GroupsOverlay(m, gs);
    GroupsOverlay(m + g, gs);
    assert (m + g) + g == m + g;
  }

  // --------------------------------------------------------------- payments

  /** A payment of user `uid` created at `createdAt` is already stored
      (`SELECT id FROM payments WHERE user_id=$1 AND created_at=$2`; ids
      start at 1, so a found id is truthy). */
  predicate Recorded(pm: map<int, Payment>, uid: int, createdAt: int) {
    exists pid :: pid in pm && pm[pid].userId == uid && pm[pid].createdAt == createdAt
  }

  /** No two stored payments share a user and a creation time. */
  predicate StampsUnique(pm: map<int, Payment>) {
    forall p, q :: p in pm && q in pm && pm[p].userId == pm[q].userId && pm[p].createdAt == pm[q].createdAt ==> p == q
  }

  /** The payments table and the next id after the second loop. */
  function PaymentsAfter(pm: map<int, Payment>, next: int, ps: seq<OldPayment>): (int, map<int, Payment>)
    decreases |ps|
  {
    if ps == [] then (next, pm)
    else
      var (n, m) := PaymentsAfter(pm, next, ps[..|ps| - 1]);
      var p := ps[|ps| - 1];
      if Recorded(m, p.userId, p.createdAt) then (n, m) else (n + 1, m[n := Inserted(p)])
  }

  /** The second loop only adds rows: stored payments keep their id and
      content, each new row is a copy of a source row under an id from
      `next` upwards, and the id counter never goes back. */
  lemma {:induction false} PaymentsGrow(pm: map<int, Payment>, next: int, ps: seq<OldPayment>)
    requires forall pid :: pid in pm ==> pid < next
    ensures var (n, m) := PaymentsAfter(pm, next, ps);
      && next <= n
      && (forall pid :: pid in pm ==> pid in m && m[pid] == pm[pid])
      && (forall pid :: pid in m ==> pid < n)
      && (forall pid :: pid in m && pid !in pm ==> next <= pid && exists i :: 0 <= i < |ps| && m[pid] == Inserted(ps[i]))
    decreases |ps|
  {
    if ps != [] {
      var front := ps[..|ps| - 1];
      PaymentsGrow(pm, next, front);
      var (n, m) := PaymentsAfter(pm, next, front);
      assert forall i :: 0 <= i < |front| ==> front[i] == ps[i];
      var p := ps[|ps| - 1];
      if !Recorded(m, p.userId, p.createdAt) {
        var m' := m[n := Inserted(p)];
        forall pid | pid in m' && pid !in pm ensures next <= pid && exists i :: 0 <= i < |ps| && m'[pid] == Inserted(ps[i]) {
          if pid == n {
            assert m'[pid] == Inserted(ps[|ps| - 1]);
          } else {
            var i :| 0 <= i < |front| && m[pid] == Inserted(front[i]);
            assert m'[pid] == Inserted(ps[i]);
          }
        }
      }
    }
  }

  /** After the second loop every source payment is on record. */
  lemma {:induction false} PaymentsCover(pm: map<int, Payment>, next: int, ps: seq<OldPayment>)
    requires forall pid :: pid in pm ==> pid < next
    ensures forall i :: 0 <= i < |ps| ==> Recorded(PaymentsAfter(pm, next, ps).1, ps[i].userId, ps[i].createdAt)
    decreases |ps|
  {
    if ps != [] {
      var front := ps[..|ps| - 1];
      PaymentsCover(pm, next, front);
      PaymentsGrow(pm, next, front);
      var (n, m) := PaymentsAfter(pm, next, front);
      var p := ps[|ps| - 1];
      var m' := PaymentsAfter(pm, next, ps).1;
      assert forall pid :: pid in m ==> pid in m' && m'[pid] == m[pid];
      forall i | 0 <= i < |ps| ensures Recorded(m', ps[i].userId, ps[i].createdAt) {
        if i < |front| {
          assert front[i] == ps[i];
          var pid :| pid in m && m[pid].userId == ps[i].userId && m[pid].createdAt == ps[i].createdAt;
          assert pid in m';
        } else if !Recorded(m, p.userId, p.createdAt) {
          assert n in m' && m'[n] == Inserted(p);
        }
      }
    }
  }

  /** Without duplicates in the target the second loop adds none: source
      rows sharing a user and a creation time collapse into one. */
  lemma {:induction false} PaymentsStayUnique(pm: map<int, Payment>, next: int, ps: seq<OldPayment>)
    requires forall pid :: pid in pm ==> pid < next
    requires StampsUnique(pm)
    ensures StampsUnique(PaymentsAfter(pm, next, ps).1)
    decreases |ps|
  {
    if ps != [] {
      var front := ps[..|ps| - 1];
      PaymentsStayUnique(pm, next, front);
      PaymentsGrow(pm, next, front);
      var (n, m) := PaymentsAfter(pm, next, front);
      var p := ps[|ps| - 1];
      if !Recorded(m, p.userId, p.createdAt) {
        var m' := m[n := Inserted(p)];
        assert n !in m;
        assert forall a :: a in m ==> m[a].userId != p.userId || m[a].createdAt != p.createdAt;
        assert forall a :: a in m' && a != n ==> a in m && m'[a] == m[a];
      }
    }
  }

  /** When every source payment is already on record the second loop
      writes nothing. */
  lemma {:induction false} PaymentsSettled(pm: map<int, Payment>, next: int, ps: seq<OldPayment>)
    requires forall i :: 0 <= i < |ps| ==> Recorded(pm, ps[i].userId, ps[i].createdAt)
    ensures PaymentsAfter(pm, next, ps) == (next, pm)
    decreases |ps|
  {
    if ps != [] {
      var front := ps[..|ps| - 1];
      assert forall i :: 0 <= i < |front| ==> front[i] == ps[i];
      PaymentsSettled(pm, next, front);
      assert Recorded(pm, ps[|ps| - 1].userId, ps[|ps| - 1].createdAt);
    }
  }

  /** Copying the same payments a second time changes nothing, not even
      the id counter. */
  lemma PaymentsIdempotent(pm: map<int, Payment>, next: int, ps: seq<OldPayment>)
    requires forall pid :: pid in pm ==> pid < next
    ensures var (n, m) := PaymentsAfter(pm, next, ps);
      PaymentsAfter(m, n, ps) == (n, m)
  {
    PaymentsCover(pm, next, ps);
    var (n, m) := PaymentsAfter(pm, next, ps);
    PaymentsSettled(m, n, ps);
  }

  // ---------------------------------------------------------------- migrate

  /** The target after a run on `src`; `None` is a missing SQLite file. */
  function Target(users: map<int, UserRow>, extras: map<(int, int), int>, pm: map<int, Payment>, next: int,
                  src: Option<Snapshot>): (map<int, UserRow>, map<(int, int), int>, map<int, Payment>, int)
  {
    if src.None? then (users, extras, pm, next)
    else
      var (n, m) := PaymentsAfter(pm, next, src.value.payments);
      (UsersAfter(users, src.value.users), GroupsAfter(extras, src.value.groups), m, n)
  }

  /** Running the migration twice leaves the target as after one run. */
  lemma MigrateIdempotent(users: map<int, UserRow>, extras: map<(int, int), int>, pm: map<int, Payment>, next: int,
                          src: Option<Snapshot>)
    requires forall pid :: pid in pm ==> pid < next
    ensures var (u, e, m, n) := Target(users, extras, pm, next, src);
      Target(u, e, m, n, src) == (u, e, m, n)
  {
    if src.Some? {
      UsersIdempotent(users, src.value.users);
      GroupsIdempotent(extras, src.value.groups);
      PaymentsIdempotent(pm, next, src.value.payments);
    }
  }

  /** `migrate`: without a source nothing is touched; otherwise the users
      loop, the payments loop with its existence check, and the
      user_groups loop. */
  method Migrate(st: Store, src: Option<Snapshot>)
    requires st.Valid()
    modifies st
    ensures st.Valid()
    ensures (st.users, st.extras, st.payments, st.nextPaymentId)
         == Target(old(st.users), old(st.extras), old(st.payments), old(st.nextPaymentId), src)
  {
    if src.None? {
      return;
    }
    var s := src.value;

    for i := 0 to |s.users|
      invariant st.Valid()
      invariant st.users == UsersAfter(old(st.users), s.users[..i])
      invariant st.extras == old(st.extras) && st.payments == old(st.payments) && st.nextPaymentId == old(st.nextPaymentId)
    {
      var u := s.users[i];
      assert s.users[..i + 1][..i] == s.users[..i];
      st.ReplaceUser(u.uid, u.username, u.fullName, u.groupId, u.expiresAt, PhoneCell(u), AgreedCell(u));
    }
    assert s.users[..|s.users|] == s.users;

    for i := 0 to |s.payments|
      invariant st.Valid()
      invariant (st.nextPaymentId, st.payments) == PaymentsAfter(old(st.payments), old(st.nextPaymentId), s.payments[..i])
      invariant st.users == UsersAfter(old(st.users), s.users) && st.extras == old(st.extras)
    {
      var p := s.payments[i];
      assert s.payments[..i + 1][..i] == s.payments[..i];
      if !Recorded(st.payments, p.userId, p.createdAt) {
        var _ := st.InsertPayment(Inserted(p));
      }
    }
    assert s.payments[..|s.payments|] == s.payments;

    for i := 0 to |s.groups|
      invariant st.Valid()
      invariant st.extras == GroupsAfter(old(st.extras), s.groups[..i])
      invariant (st.nextPaymentId, st.payments) == PaymentsAfter(old(st.payments), old(st.nextPaymentId), s.payments)
      invariant st.users == UsersAfter(old(st.users), s.users)
    {
      var g := s.groups[i];
      assert s.groups[..i + 1][..i] == s.groups[..i];
      st.AddUserGroup(g.uid, g.gid, g.expiresAt);
    }
    assert s.groups[..|s.groups|] == s.groups;
  }
}
