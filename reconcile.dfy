/** One pass of the reminder loop and the admin's three follow-up buttons.
    A pass runs the four expiry queries and hands every row to the warning
    step, which sends at most one warning per (user, group or 0, reason)
    per hour, remembered in `_WARNED_CACHE`. */
module Reconcile {
  import opened Common
  import opened Store
  import opened Timing
  import opened Sessions
  import opened Chats

  datatype Reason = Soon | Expired

  /** `(uid, gid or 0, reason)`. */
  datatype WarnKey = WarnKey(uid: int, gid: int, reason: Reason)

  /** Seconds before the same key may be warned again. */
  const COOLDOWN: int := 3600

  function KeyOf(row: ExpiryRow, reason: Reason): WarnKey {
    WarnKey(row.uid, row.gid.GetOr(0), reason)
  }

  /** One warning sent: to the user and to every admin, with the buttons
      `warn_paid`/`warn_notpaid`/`warn_kick` carrying the row's group. */
  datatype Warning = Warning(key: WarnKey, row: ExpiryRow, left: Left)

  /** `_WARNED_CACHE.get(key, 0)`. */
  function Last(c: map<WarnKey, int>, k: WarnKey): int {
    if k in c then c[k] else 0
  }

  /** The key may be warned at `now`. */
  predicate Stale(c: map<WarnKey, int>, k: WarnKey, now: int) {
    now - Last(c, k) >= COOLDOWN
  }

  /** The keys of `ks` that may be warned at `now`. */
  function StaleKeys(c: map<WarnKey, int>, ks: set<WarnKey>, now: int): set<WarnKey> {
    set k | k in ks && Stale(c, k, now)
  }

  /** The cache after offering every key of `ks` at `now`: the stale ones
      are stamped with `now`, every other entry is as it was. */
  function Refreshed(c: map<WarnKey, int>, ks: set<WarnKey>, now: int): map<WarnKey, int> {
    map k | k in c.Keys + StaleKeys(c, ks, now) :: if k in StaleKeys(c, ks, now) then now else c[k]
  }

  /** Offering keys in two batches is offering them at once: a key stamped
      in the first batch is not stale in the second (the same `now`), so
      the two batches warn disjoint keys whose union is what one batch
      would warn. */
  lemma RefreshCompose(c: map<WarnKey, int>, k1: set<WarnKey>, k2: set<WarnKey>, now: int)
    ensures Refreshed(Refreshed(c, k1, now), k2, now) == Refreshed(c, k1 + k2, now)
    ensures StaleKeys(c, k1, now) !! StaleKeys(Refreshed(c, k1, now), k2, now)
    ensures StaleKeys(c, k1, now) + StaleKeys(Refreshed(c, k1, now), k2, now) == StaleKeys(c, k1 + k2, now)
  {
    var c1 := Refreshed(c, k1, now);
    forall k | k in StaleKeys(c, k1, now) ensures !Stale(c1, k, now) {
      assert c1[k] == now;
    }
    forall k | k !in StaleKeys(c, k1, now) ensures Last(c1, k) == Last(c, k) {
    }
    var a := Refreshed(c1, k2, now);
    var b := Refreshed(c, k1 + k2, now);
    assert StaleKeys(c, k1, now) + StaleKeys(c1, k2, now) == StaleKeys(c, k1 + k2, now);
    assert a.Keys == b.Keys;
    forall k | k in a ensures a[k] == b[k] {
    }
  }

  /** Offering no keys changes nothing. */
  lemma RefreshNone(c: map<WarnKey, int>, now: int)
    ensures Refreshed(c, {}, now) == c && StaleKeys(c, {}, now) == {}
  {
    assert Refreshed(c, {}, now).Keys == c.Keys;
  }

  class WarnCache {
    /** `_WARNED_CACHE`: the time each key was last warned. */
    var entries: map<WarnKey, int>

    constructor ()
      ensures entries == map[]
    {
      entries := map[];
    }

    /** `_warn_and_buttons`: a key warned less than an hour ago is skipped
        and the cache is left alone; otherwise the cache entry is stamped
        with `now` first and then the warning goes out. */
    method Warn(row: ExpiryRow, reason: Reason, now: int) returns (sent: Option<Warning>)
      modifies this
      ensures sent.Some? <==> old(Stale(entries, KeyOf(row, reason), now))
      ensures sent.Some? ==> sent.value == Warning(KeyOf(row, reason), row, HumanLeft(row.expiresAt, now))
      ensures entries == Refreshed(old(entries), {KeyOf(row, reason)}, now)
      ensures !sent.Some? ==> entries == old(entries)
    {
      var key := KeyOf(row, reason);
      var last := if key in entries then entries[key] else 0;
      assert StaleKeys(entries, {key}, now) == if now - last < COOLDOWN then {} else {key};
      if now - last < COOLDOWN {
        RefreshNone(entries, now);
        return None;
      }
      assert Refreshed(entries, {key}, now) == entries[key := now];
      entries := entries[key := now];
      sent := Some(Warning(key, row, HumanLeft(row.expiresAt, now)));
    }
  }

  /** The keys of a query's rows under one reason. */
  function KeysOf(rows: set<ExpiryRow>, reason: Reason): set<WarnKey> {
    set r | r in rows :: KeyOf(r, reason)
  }

  function SentKeys(sent: seq<Warning>): set<WarnKey> {
    set w | w in sent :: w.key
  }

  /** No key is warned twice. */
  predicate KeysDistinct(sent: seq<Warning>) {
    forall i, j :: 0 <= i < j < |sent| ==> sent[i].key != sent[j].key
  }

  /** Each warning is about a row of `rows` under `reason`, with its key and
      the days left at `now`. */
  predicate WarningsFor(sent: seq<Warning>, rows: set<ExpiryRow>, reason: Reason, now: int) {
    forall i :: 0 <= i < |sent| ==>
      sent[i].row in rows && sent[i].key == KeyOf(sent[i].row, reason) &&
      sent[i].left == HumanLeft(sent[i].row.expiresAt, now)
  }

  /** Adding a warning for a key not yet warned. */
  lemma AppendWarning(sent: seq<Warning>, w: Warning, rows: set<ExpiryRow>, reason: Reason, now: int)
    requires KeysDistinct(sent) && WarningsFor(sent, rows, reason, now)
    requires w.key !in SentKeys(sent)
    requires w.row in rows && w.key == KeyOf(w.row, reason) && w.left == HumanLeft(w.row.expiresAt, now)
    ensures KeysDistinct(sent + [w]) && WarningsFor(sent + [w], rows, reason, now)
    ensures SentKeys(sent + [w]) == SentKeys(sent) + {w.key}
  {
    var s := sent + [w];
    forall i | 0 <= i < |sent| ensures s[i] == sent[i] && sent[i].key in SentKeys(sent) {
    }
    forall x | x in s ensures x in sent || x == w {
    }
  }

  /** Taking one more row out of the loop's to-do set. */
  lemma KeysOfStep(rows: set<ExpiryRow>, todo: set<ExpiryRow>, row: ExpiryRow, reason: Reason)
    requires row in todo && todo <= rows
    ensures KeysOf(rows - (todo - {row}), reason) == KeysOf(rows - todo, reason) + {KeyOf(row, reason)}
  {
    assert rows - (todo - {row}) == (rows - todo) + {row};
  }

  /** The loop over one query's rows, in whatever order they come. */
  method WarnAll(cache: WarnCache, rows: set<ExpiryRow>, reason: Reason, now: int) returns (sent: seq<Warning>)
    modifies cache
    ensures cache.entries == Refreshed(old(cache.entries), KeysOf(rows, reason), now)
    ensures SentKeys(sent) == StaleKeys(old(cache.entries), KeysOf(rows, reason), now)
    ensures KeysDistinct(sent) && WarningsFor(sent, rows, reason, now)
  {
    ghost var c0 := cache.entries;
    sent := [];
    var todo := rows;
    ghost var done: set<WarnKey> := {};
    RefreshNone(c0, now);
    assert rows - todo == {};
    while todo != {}
      invariant todo <= rows
      invariant done == KeysOf(rows - todo, reason)
      invariant cache.entries == Refreshed(c0, done, now)
      invariant SentKeys(sent) == StaleKeys(c0, done, now)
      invariant KeysDistinct(sent) && WarningsFor(sent, rows, reason, now)
      decreases todo
    {
      ghost var w := Pick(todo);
      var row :| row in todo;
      ghost var key := KeyOf(row, reason);
      RefreshCompose(c0, done, {key}, now);
      KeysOfStep(rows, todo, row, reason);
      var s := cache.Warn(row, reason, now);
      if s.Some? {
        AppendWarning(sent, s.value, rows, reason, now);
        sent := sent + [s.value];
      }
      done := done + {key};
      todo := todo - {row};
    }
    assert rows - todo == rows;
  }

  /** The four queries of one pass. */
  datatype Category = SoonPrimary | SoonExtra | ExpiredPrimary | ExpiredExtra

  function ReasonOf(cat: Category): Reason {
    if cat == SoonPrimary || cat == SoonExtra then Soon else Expired
  }

  /** The rows a query returns at `now`. */
  function RowsOf(st: Store, cat: Category, now: int, days: int): set<ExpiryRow>
    reads st
  {
    match cat
    case SoonPrimary => st.SoonUsers(now, days)
    case SoonExtra => st.SoonExtras(now, days)
    case ExpiredPrimary => st.ExpiredUsers(now)
    case ExpiredExtra => st.ExpiredExtras(now)
  }

  /** The keys a query offers: none when it failed. */
  function OfferedKeys(st: Store, cat: Category, now: int, days: int, failed: set<Category>): set<WarnKey>
    reads st
  {
    if cat in failed then {} else KeysOf(RowsOf(st, cat, now, days), ReasonOf(cat))
  }

  /** The keys one pass offers: every row of every query that did not fail. */
  function CycleKeys(st: Store, now: int, days: int, failed: set<Category>): set<WarnKey>
    reads st
  {
    OfferedKeys(st, SoonPrimary, now, days, failed) + OfferedKeys(st, SoonExtra, now, days, failed) +
    OfferedKeys(st, ExpiredPrimary, now, days, failed) + OfferedKeys(st, ExpiredExtra, now, days, failed)
  }

  /** A warning of the pass: about a row of a query that did not fail, with
      that query's reason, its key and the days left at `now`. */
  predicate FromCycle(st: Store, now: int, days: int, failed: set<Category>, w: Warning)
    reads st
  {
    (exists cat :: cat !in failed && w.row in RowsOf(st, cat, now, days) && w.key.reason == ReasonOf(cat)) &&
    w.key == KeyOf(w.row, w.key.reason) && w.left == HumanLeft(w.row.expiresAt, now)
  }

  predicate AllFromCycle(st: Store, now: int, days: int, failed: set<Category>, sent: seq<Warning>)
    reads st
  {
    forall i :: 0 <= i < |sent| ==> FromCycle(st, now, days, failed, sent[i])
  }

  /** One query's loop inside the pass; a failed query sends nothing. */
  method Stage(st: Store, cache: WarnCache, cat: Category, now: int, days: int, failed: set<Category>)
    returns (sent: seq<Warning>)
    modifies cache
    ensures cache.entries == Refreshed(old(cache.entries), OfferedKeys(st, cat, now, days, failed), now)
    ensures SentKeys(sent) == StaleKeys(old(cache.entries), OfferedKeys(st, cat, now, days, failed), now)
    ensures KeysDistinct(sent) && AllFromCycle(st, now, days, failed, sent)
  {
    if cat in failed {
      RefreshNone(cache.entries, now);
      return [];
    }
    var rows := RowsOf(st, cat, now, days);
    sent := WarnAll(cache, rows, ReasonOf(cat), now);
    forall i | 0 <= i < |sent| ensures FromCycle(st, now, days, failed, sent[i]) {
      assert sent[i].row in rows && sent[i].key.reason == ReasonOf(cat);
    }
  }

  /** Joining the warnings of two consecutive stages. */
  lemma JoinStages(c: map<WarnKey, int>, k1: set<WarnKey>, k2: set<WarnKey>, now: int, s1: seq<Warning>, s2: seq<Warning>)
    requires SentKeys(s1) == StaleKeys(c, k1, now) && KeysDistinct(s1)
    requires SentKeys(s2) == StaleKeys(Refreshed(c, k1, now), k2, now) && KeysDistinct(s2)
    ensures SentKeys(s1 + s2) == StaleKeys(c, k1 + k2, now) && KeysDistinct(s1 + s2)
    ensures Refreshed(Refreshed(c, k1, now), k2, now) == Refreshed(c, k1 + k2, now)
  {
    RefreshCompose(c, k1, k2, now);
    var s := s1 + s2;
    forall w | w in s ensures w in s1 || w in s2 {
    }
    assert SentKeys(s) == SentKeys(s1) + SentKeys(s2);
    forall i, j | 0 <= i < j < |s| ensures s[i].key != s[j].key {
      if i < |s1| && j >= |s1| {
        assert s[i].key in SentKeys(s1);
        assert s[j] == s2[j - |s1|];
        assert s[j].key in SentKeys(s2);
      }
    }
  }

  lemma JoinFrom(st: Store, now: int, days: int, failed: set<Category>, s1: seq<Warning>, s2: seq<Warning>)
    requires AllFromCycle(st, now, days, failed, s1) && AllFromCycle(st, now, days, failed, s2)
    ensures AllFromCycle(st, now, days, failed, s1 + s2)
  {
    forall i | 0 <= i < |s1 + s2| ensures FromCycle(st, now, days, failed, (s1 + s2)[i]) {
      if i >= |s1| {
        assert (s1 + s2)[i] == s2[i - |s1|];
      }
    }
  }

  /** One pass of `auto_kick_loop`, all at the same `now`: soon primary
      grants, soon extra grants, expired primary grants, expired extra
      grants; a query that fails (`failed`) is skipped. Every key of the
      pass that was not warned within the hour is warned exactly once and
      stamped; nothing else is sent and the grant tables are not touched. */
  method Cycle(cfg: Config, st: Store, cache: WarnCache, now: int, failed: set<Category>) returns (sent: seq<Warning>)
    modifies cache
    ensures cache.entries == Refreshed(old(cache.entries), CycleKeys(st, now, cfg.remindDays, failed), now)
    ensures SentKeys(sent) == StaleKeys(old(cache.entries), CycleKeys(st, now, cfg.remindDays, failed), now)
    ensures KeysDistinct(sent) && AllFromCycle(st, now, cfg.remindDays, failed, sent)
  {
    var days := cfg.remindDays;
    ghost var c0 := cache.entries;
    ghost var k1 := OfferedKeys(st, SoonPrimary, now, days, failed);
    ghost var k2 := OfferedKeys(st, SoonExtra, now, days, failed);
    ghost var k3 := OfferedKeys(st, ExpiredPrimary, now, days, failed);
    ghost var k4 := OfferedKeys(st, ExpiredExtra, now, days, failed);
    var s1 := Stage(st, cache, SoonPrimary, now, days, failed);
    var s2 := Stage(st, cache, SoonExtra, now, days, failed);
    JoinStages(c0, k1, k2, now, s1, s2);
    JoinFrom(st, now, days, failed, s1, s2);
    var s3 := Stage(st, cache, ExpiredPrimary, now, days, failed);
    JoinStages(c0, k1 + k2, k3, now, s1 + s2, s3);
    JoinFrom(st, now, days, failed, s1 + s2, s3);
    var s4 := Stage(st, cache, ExpiredExtra, now, days, failed);
    JoinStages(c0, k1 + k2 + k3, k4, now, s1 + s2 + s3, s4);
    JoinFrom(st, now, days, failed, s1 + s2 + s3, s4);
    sent := s1 + s2 + s3 + s4;
  }

  /** A key is warned again only once the hour has passed: right after a
      pass, every key it offered is stamped at that pass's time or later
      than the cooldown allows. */
  lemma NoRepeatWithinHour(c: map<WarnKey, int>, ks: set<WarnKey>, now: int, later: int)
    requires now <= later < now + COOLDOWN
    ensures forall k :: k in StaleKeys(c, ks, now) ==> !Stale(Refreshed(c, ks, now), k, later)
  {
  }

  // ------------------------------------------------------ the admin buttons

  /** What a follow-up button answers. */
  datatype FollowUp = AdminsOnly | Extended(expiresAt: int) | NotedUnpaid(uid: int) | Protected | KickFailed | Kicked

  /** `cb_warn_paid`: the primary expiry (on an existing row) and the
      (uid, gid) extra grant are both set to now + SUBSCRIPTION_DAYS days,
      whatever the old expiry was. */
  method WarnPaid(cfg: Config, st: Store, admin: int, uid: int, gid: int, now: int) returns (a: FollowUp)
    requires st.Valid()
    modifies st
    ensures st.Valid()
    ensures a == if IsAdmin(cfg, admin) then Extended(ExpiryFrom(now, cfg.subscriptionDays)) else AdminsOnly
    ensures a.Extended? ==>
      && st.users == (if uid in old(st.users) then old(st.users)[uid := Apply(old(st.users)[uid], SetExpiry(a.expiresAt))] else old(st.users))
      && st.extras == old(st.extras)[(uid, gid) := a.expiresAt]
    ensures !a.Extended? ==> unchanged(st)
    ensures st.payments == old(st.payments)
  {
    if !IsAdmin(cfg, admin) {
      return AdminsOnly;
    }
    var exp := ExpiryFrom(now, cfg.subscriptionDays);
    st.UpdateUser(uid, SetExpiry(exp));
    st.AddUserGroup(uid, gid, exp);
    a := Extended(exp);
  }

  /** `cb_warn_notpaid`: an acknowledgement only; no state changes. */
  function WarnNotPaid(cfg: Config, admin: int, uid: int): (a: FollowUp)
    ensures a == NotedUnpaid(uid) <==> IsAdmin(cfg, admin)
    ensures a != NotedUnpaid(uid) ==> a == AdminsOnly
  {
    if IsAdmin(cfg, admin) then NotedUnpaid(uid) else AdminsOnly
  }

  /** `cb_warn_kick`. A group admin or owner is not removed; a failed role
      lookup (`role == None`) does not block; a failed ban or unban changes
      nothing. Otherwise the primary grant is cleared if it is this group and
      the extra grant row is deleted; no expiry is changed. */
  method WarnKick(cfg: Config, st: Store, admin: int, uid: int, gid: int, role: Option<ChatRole>,
                  banOk: bool, unbanOk: bool) returns (a: FollowUp)
    requires st.Valid()
    modifies st
    ensures st.Valid()
    ensures a == Kicked <==>
      IsAdmin(cfg, admin) && role != Some(Administrator) && role != Some(Creator) && banOk && unbanOk
    ensures a == Protected <==> IsAdmin(cfg, admin) && (role == Some(Administrator) || role == Some(Creator))
    ensures a != Kicked ==> unchanged(st)
    ensures a == Kicked ==>
      && st.users == (if uid in old(st.users) then old(st.users)[uid := ClearedIfEqual(old(st.users)[uid], gid)] else old(st.users))
      && st.extras == old(st.extras) - {(uid, gid)}
      && (uid in st.users ==> st.users[uid].groupId != Some(gid))
      && (uid, gid) !in st.extras
    ensures st.users.Keys == old(st.users).Keys
    ensures forall u :: u in st.users ==> st.users[u].expiresAt == old(st.users[u].expiresAt)
    ensures st.payments == old(st.payments)
  {
    if !IsAdmin(cfg, admin) {
      return AdminsOnly;
    }
    if role == Some(Administrator) || role == Some(Creator) {
      return Protected;
    }
    if !banOk || !unbanOk {
      return KickFailed;
    }
    st.ClearUserGroup(uid, gid);
    st.ClearUserGroupExtra(uid, gid);
    a := Kicked;
  }
}
