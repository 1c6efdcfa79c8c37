/** The bot's payment-approval handlers: "approve now", "approve from a
    date", the single-group and multi-group pickers, and reject. Each
    handler answers the admin with an `Answer`; the Telegram replies,
    keyboards and the message to the paying user are not modelled beyond
    what they carry. */
module Approval {
  import opened Common
  import opened Store
  import opened Timing
  import opened Sessions
  import opened Chats

  /** A button of the single-group picker: `pick_group:{pid}:{gid}[:with_date:{iso}]`. */
  datatype PickButton = PickButton(pid: int, gid: int, startIso: Option<string>)

  /** One line of `links_out`: the group and the issuer's outcome for it. */
  datatype LinkLine = LinkLine(gid: int, link: Link)

  /** What an approval handler answers. */
  datatype Answer =
    | AdminsOnly
    | PaymentMissing
    | AlreadyApproved
    | NoGroups
    | SessionMissing
    | NothingSelected
    | ChooseMode(pid: int, startIso: Option<string>)
    | AskDate(pid: int)
    | ChooseGroup(buttons: seq<PickButton>)
    | ChooseGroups(pid: int, selected: set<int>)
    | GrantedMany(uid: int, expiresAt: int, lines: seq<LinkLine>)
    | GrantedOne(uid: int, gid: int, expiresAt: int, url: string)
    | LinkFailed(uid: int, gid: int, expiresAt: int, reason: string)
    | PaymentRejected(pid: int)

  /** The only re-decision guard: the payment exists and is not `approved`
      (a `rejected` payment passes). */
  predicate Undecided(payments: map<int, Payment>, pid: int) {
    pid in payments && payments[pid].status != Approved
  }

  /** The admin's `MULTI_PICK` entry exists and is about this payment. */
  predicate SessionFor(picks: map<int, MultiPick>, admin: int, pid: int) {
    admin in picks && picks[admin].pid == pid
  }

  // ------------------------------------------------ grants to extra groups

  /** The `user_groups` keys of `uid` in the groups `gs`. */
  function PairsOf(uid: int, gs: set<int>): set<(int, int)> {
    set g | g in gs :: (uid, g)
  }

  lemma PairsOfSpec(uid: int, gs: set<int>)
    ensures forall k :: k in PairsOf(uid, gs) <==> k.0 == uid && k.1 in gs
  {
    forall k: (int, int) | k.0 == uid && k.1 in gs ensures k in PairsOf(uid, gs) {
      var g := k.1;
      assert g in gs;
      assert (uid, g) in PairsOf(uid, gs);
      assert k == (uid, g);
    }
  }

  /** `user_groups` after `add_user_group(uid, g, exp)` for every g in `gs`,
      in any order: those keys hold `exp`, every other row is as it was. */
  function Granted(m: map<(int, int), int>, uid: int, gs: set<int>, exp: int): (r: map<(int, int), int>)
    ensures forall k :: k in r <==> k in m || (k.0 == uid && k.1 in gs)
    ensures forall k :: k in r ==> r[k] == if k.0 == uid && k.1 in gs then exp else m[k]
  {
    PairsOfSpec(uid, gs);
    map k | k in m.Keys + PairsOf(uid, gs) :: if k in PairsOf(uid, gs) then exp else m[k]
  }

  lemma GrantedNone(m: map<(int, int), int>, uid: int, exp: int)
    ensures Granted(m, uid, {}, exp) == m
  {
    assert Granted(m, uid, {}, exp).Keys == m.Keys;
  }

  /** One more upsert extends the granted set by one group. */
  lemma GrantedAdd(m: map<(int, int), int>, uid: int, gs: set<int>, g: int, exp: int)
    ensures Granted(m, uid, gs, exp)[(uid, g) := exp] == Granted(m, uid, gs + {g}, exp)
  {
    var a := Granted(m, uid, gs, exp)[(uid, g) := exp];
    var b := Granted(m, uid, gs + {g}, exp);
    assert a.Keys == b.Keys;
    forall k | k in a ensures a[k] == b[k] {
    }
  }

  // ------------------------------------------ the order of a Python set

  predicate Distinct(s: seq<int>) {
    forall i, j :: 0 <= i < j < |s| ==> s[i] != s[j]
  }

  function Elems(s: seq<int>): set<int> {
    set x | x in s
  }

  /** `list(selected)`: the set's elements, each once, in some order. */
  predicate Enumerates(order: seq<int>, s: set<int>) {
    Distinct(order) && Elems(order) == s
  }

  method ListOf(s: set<int>) returns (order: seq<int>)
    ensures Enumerates(order, s)
  {
    order := [];
    var rest := s;
    while rest != {}
      invariant rest <= s
      invariant Distinct(order)
      invariant Elems(order) == s - rest
      decreases rest
    {
      ghost var w := Pick(rest);
      var g :| g in rest;
      assert g !in order;
      assert Elems(order + [g]) == Elems(order) + {g};
      order := order + [g];
      rest := rest - {g};
    }
  }

  /** A listing of a set has exactly as many entries as the set. */
  lemma {:induction false} EnumerationSize(order: seq<int>, s: set<int>)
    requires Enumerates(order, s)
    ensures |order| == |s|
  {
    if order != [] {
      var init, last := order[..|order| - 1], order[|order| - 1];
      assert order == init + [last];
      assert last !in init;
      assert Elems(init) == s - {last};
      EnumerationSize(init, s - {last});
    } else {
      assert s == {};
    }
  }

  /** After the first entry, a listing holds the rest of the set. */
  lemma EnumerationRest(order: seq<int>, s: set<int>)
    requires Enumerates(order, s) && order != []
    ensures Elems(order[1..]) == s - {order[0]}
  {
    assert order == [order[0]] + order[1..];
    assert order[0] !in order[1..];
  }

  lemma EnumerationNonEmpty(order: seq<int>, s: set<int>)
    requires Enumerates(order, s) && s != {}
    ensures order != []
  {
    ghost var w := Pick(s);
    assert w in Elems(order);
  }

  /** The groups of `links_out`, in order. */
  function GidsOf(lines: seq<LinkLine>): seq<int> {
    seq(|lines|, i requires 0 <= i < |lines| => lines[i].gid)
  }

  /** Every selected group has exactly one line, and each line carries the
      issuer's outcome for its group, failures included. */
  predicate LinesFor(lines: seq<LinkLine>, sel: set<int>, issue: int -> Link) {
    Enumerates(GidsOf(lines), sel) && forall i :: 0 <= i < |lines| ==> lines[i].link == issue(lines[i].gid)
  }

  /** With `LinesFor`, there are as many lines as selected groups. */
  lemma LinesCount(lines: seq<LinkLine>, sel: set<int>, issue: int -> Link)
    requires LinesFor(lines, sel, issue)
    ensures |lines| == |sel|
  {
    EnumerationSize(GidsOf(lines), sel);
  }

  // ------------------------------------------------------------ handlers

  /** `cb_approve_now`: the guards, then the choice between one group and
      several; no state changes. */
  function ApproveNow(cfg: Config, payments: map<int, Payment>, admin: int, pid: int): (a: Answer)
    ensures a == ChooseMode(pid, None) <==> IsAdmin(cfg, admin) && Undecided(payments, pid) && cfg.groupIds != []
    ensures a == AdminsOnly <==> !IsAdmin(cfg, admin)
    ensures a == PaymentMissing <==> IsAdmin(cfg, admin) && pid !in payments
    ensures a == AlreadyApproved <==> IsAdmin(cfg, admin) && pid in payments && payments[pid].status == Approved
  {
    if !IsAdmin(cfg, admin) then AdminsOnly
    else if pid !in payments then PaymentMissing
    else if payments[pid].status == Approved then AlreadyApproved
    else if cfg.groupIds == [] then NoGroups
    else ChooseMode(pid, None)
  }

  /** `cb_approve_date`: the same guards (but no group check), then the
      admin's next text message is read as the start date. */
  method ApproveDate(cfg: Config, st: Store, ss: Conversations, admin: int, pid: int) returns (a: Answer)
    modifies ss
    ensures a == AskDate(pid) <==> IsAdmin(cfg, admin) && Undecided(st.payments, pid)
    ensures ss.waitDateFor == if a == AskDate(pid) then old(ss.waitDateFor)[admin := pid] else old(ss.waitDateFor)
    ensures ss.multiPick == old(ss.multiPick)
    ensures ss.waitContactFor == old(ss.waitContactFor) && ss.waitFullnameFor == old(ss.waitFullnameFor)
  {
    if !IsAdmin(cfg, admin) {
      return AdminsOnly;
    }
    var row := st.PaymentOf(pid);
    if row.None? {
      return PaymentMissing;
    }
    if row.value.status == Approved {
      return AlreadyApproved;
    }
    ss.waitDateFor := ss.waitDateFor[admin := pid];
    a := AskDate(pid);
  }

  /** `cb_ap_single`: one button per configured group, in the configured
      order, each carrying the payment and the start date; no payment check. */
  function ApSingle(cfg: Config, admin: int, pid: int, startIso: Option<string>): (a: Answer)
    ensures !IsAdmin(cfg, admin) <==> a == AdminsOnly
    ensures IsAdmin(cfg, admin) ==> a.ChooseGroup? && |a.buttons| == |cfg.groupIds|
    ensures IsAdmin(cfg, admin) ==> forall i :: 0 <= i < |a.buttons| ==>
      a.buttons[i].gid == cfg.groupIds[i] && a.buttons[i].pid == pid && a.buttons[i].startIso == startIso
  {
    if !IsAdmin(cfg, admin) then AdminsOnly
    else ChooseGroup(seq(|cfg.groupIds|, i requires 0 <= i < |cfg.groupIds| => PickButton(pid, cfg.groupIds[i], startIso)))
  }

  /** `cb_ms_open`: a fresh, empty selection for this admin, replacing any
      open one; no payment check. */
  method MsOpen(cfg: Config, ss: Conversations, admin: int, pid: int, startIso: Option<string>) returns (a: Answer)
    modifies ss
    ensures IsAdmin(cfg, admin) ==> a == ChooseGroups(pid, {})
    ensures !IsAdmin(cfg, admin) ==> a == AdminsOnly
    ensures ss.multiPick == if IsAdmin(cfg, admin) then old(ss.multiPick)[admin := MultiPick(pid, startIso, {})] else old(ss.multiPick)
    ensures ss.waitDateFor == old(ss.waitDateFor)
    ensures ss.waitContactFor == old(ss.waitContactFor) && ss.waitFullnameFor == old(ss.waitFullnameFor)
  {
    if !IsAdmin(cfg, admin) {
      return AdminsOnly;
    }
    ss.multiPick := ss.multiPick[admin := MultiPick(pid, startIso, {})];
    a := ChooseGroups(pid, {});
  }

  /** `cb_ms_toggle`: flips one group in the admin's selection for this payment. */
  method MsToggle(cfg: Config, ss: Conversations, admin: int, pid: int, gid: int) returns (a: Answer)
    modifies ss
    ensures a.ChooseGroups? <==> IsAdmin(cfg, admin) && old(SessionFor(ss.multiPick, admin, pid))
    ensures a.ChooseGroups? ==>
      var p := old(ss.multiPick[admin]);
      a == ChooseGroups(pid, Toggled(p.selected, gid)) &&
      ss.multiPick == old(ss.multiPick)[admin := p.(selected := Toggled(p.selected, gid))]
    ensures !a.ChooseGroups? ==> ss.multiPick == old(ss.multiPick)
    ensures ss.waitDateFor == old(ss.waitDateFor)
    ensures ss.waitContactFor == old(ss.waitContactFor) && ss.waitFullnameFor == old(ss.waitFullnameFor)
  {
    if !IsAdmin(cfg, admin) {
      return AdminsOnly;
    }
    if !SessionFor(ss.multiPick, admin, pid) {
      return SessionMissing;
    }
    var p := ss.multiPick[admin];
    var sel := Toggled(p.selected, gid);
    ss.multiPick := ss.multiPick[admin := p.(selected := sel)];
    a := ChooseGroups(pid, sel);
  }

  /** The `add_user_group` loop over `extra_gids`. */
  method GrantExtras(st: Store, uid: int, gids: seq<int>, exp: int)
    requires st.Valid()
    modifies st
    ensures st.Valid()
    ensures st.extras == Granted(old(st.extras), uid, Elems(gids), exp)
    ensures st.users == old(st.users) && st.payments == old(st.payments)
  {
    GrantedNone(st.extras, uid, exp);
    assert Elems(gids[..0]) == {};
    for i := 0 to |gids|
      invariant st.Valid()
      invariant st.extras == Granted(old(st.extras), uid, Elems(gids[..i]), exp)
      invariant st.users == old(st.users) && st.payments == old(st.payments)
    {
      GrantedAdd(old(st.extras), uid, Elems(gids[..i]), gids[i], exp);
      assert Elems(gids[..i + 1]) == Elems(gids[..i]) + {gids[i]} by {
        assert gids[..i + 1] == gids[..i] + [gids[i]];
      }
      st.AddUserGroup(uid, gids[i], exp);
    }
    assert gids[..|gids|] == gids;
  }

  /** The two link loops: the primary group first, then the others, each
      failure caught and reported on its own line. */
  method IssueLinks(order: seq<int>, issue: int -> Link) returns (lines: seq<LinkLine>)
    ensures GidsOf(lines) == order
    ensures forall i :: 0 <= i < |lines| ==> lines[i].link == issue(lines[i].gid)
  {
    lines := [];
    for i := 0 to |order|
      invariant |lines| == i
      invariant forall j :: 0 <= j < i ==> lines[j] == LinkLine(order[j], issue(order[j]))
    {
      lines := lines + [LinkLine(order[i], issue(order[i]))];
    }
  }

  /** `cb_ms_confirm`. It refuses, writing nothing, a non-admin, a missing
      or already approved payment, a missing or foreign session and an empty
      selection. Otherwise one selected group becomes the primary grant in
      `users`, every other selected group is upserted into `user_groups`,
      all with expiry start + SUBSCRIPTION_DAYS days (an unparsable start
      falls back to now), the payment becomes approved by this admin, every
      selected group gets one link line whatever the issuer says, and the
      session is closed. */
  method MsConfirm(cfg: Config, st: Store, ss: Conversations, admin: int, pid: int, start: StartArg, now: int,
                   chat: Option<Chat>, issue: int -> Link) returns (a: Answer)
    requires st.Valid()
    modifies st, ss
    ensures st.Valid()
    ensures a.GrantedMany? <==>
      IsAdmin(cfg, admin) && old(Undecided(st.payments, pid)) && old(SessionFor(ss.multiPick, admin, pid)) &&
      old(ss.multiPick[admin].selected) != {}
    ensures a == PaymentMissing <==> IsAdmin(cfg, admin) && pid !in old(st.payments)
    ensures a == AlreadyApproved <==> IsAdmin(cfg, admin) && pid in old(st.payments) && old(st.payments[pid].status) == Approved
    ensures a == SessionMissing <==>
      IsAdmin(cfg, admin) && old(Undecided(st.payments, pid)) && !old(SessionFor(ss.multiPick, admin, pid))
    ensures !a.GrantedMany? ==> unchanged(st) && unchanged(ss)
    ensures a.GrantedMany? ==> admin in old(ss.multiPick) && pid in old(st.payments) && a.lines != []
    ensures a.GrantedMany? ==>
      var sel := old(ss.multiPick[admin].selected);
      var p := old(st.payments[pid]);
      var exp := ExpiryFrom(BotStart(start, now), cfg.subscriptionDays);
      var prof := ProfileOf(p.userId, chat);
      var primary := a.lines[0].gid;
      && a.uid == p.userId && a.expiresAt == exp
      && primary in sel
      && LinesFor(a.lines, sel, issue)
      && st.users == old(st.users)[p.userId := Upserted(old(st.UserOf(p.userId)), prof.username, prof.fullName, primary, exp, None, None)]
      && st.extras == Granted(old(st.extras), p.userId, sel - {primary}, exp)
      && st.payments == old(st.payments)[pid := p.(status := Approved, adminId := Some(admin))]
      && ss.multiPick == old(ss.multiPick) - {admin}
    ensures ss.waitDateFor == old(ss.waitDateFor)
    ensures ss.waitContactFor == old(ss.waitContactFor) && ss.waitFullnameFor == old(ss.waitFullnameFor)
  {
    if !IsAdmin(cfg, admin) {
      return AdminsOnly;
    }
    var row := st.PaymentOf(pid);
    if row.None? {
      return PaymentMissing;
    }
    if row.value.status == Approved {
      return AlreadyApproved;
    }
    var uid := row.value.userId;
    var exp := ExpiryFrom(BotStart(start, now), cfg.subscriptionDays);
    var prof := ProfileOf(uid, chat);
    if !SessionFor(ss.multiPick, admin, pid) {
      return SessionMissing;
    }
    var sel := ss.multiPick[admin].selected;
    if sel == {} {
      return NothingSelected;
    }
    var order := ListOf(sel);
    EnumerationNonEmpty(order, sel);
    EnumerationRest(order, sel);
    var primary := order[0];
    assert primary in Elems(order);
    st.UpsertUser(uid, prof.username, prof.fullName, primary, exp, None, None);
    st.SetPaymentStatus(pid, Approved, Some(admin));
    GrantExtras(st, uid, order[1..], exp);
    var lines := IssueLinks(order, issue);
    ss.multiPick := ss.multiPick - {admin};
    a := GrantedMany(uid, exp, lines);
    assert GidsOf(a.lines) == order;
  }

  /** `cb_pick_group`: the same guards without a session; the grant and the
      approval are written before the link is requested, so a link failure
      leaves them in place. */
  method PickGroup(cfg: Config, st: Store, admin: int, pid: int, gid: int, start: StartArg, now: int,
                   chat: Option<Chat>, issue: int -> Link) returns (a: Answer)
    requires st.Valid()
    modifies st
    ensures st.Valid()
    ensures (a.GrantedOne? || a.LinkFailed?) <==> IsAdmin(cfg, admin) && old(Undecided(st.payments, pid))
    ensures a == PaymentMissing <==> IsAdmin(cfg, admin) && pid !in old(st.payments)
    ensures a == AlreadyApproved <==> IsAdmin(cfg, admin) && pid in old(st.payments) && old(st.payments[pid].status) == Approved
    ensures !(a.GrantedOne? || a.LinkFailed?) ==> unchanged(st)
    ensures a.GrantedOne? || a.LinkFailed? ==> pid in old(st.payments)
    ensures a.GrantedOne? || a.LinkFailed? ==>
      var p := old(st.payments[pid]);
      var exp := ExpiryFrom(BotStart(start, now), cfg.subscriptionDays);
      var prof := ProfileOf(p.userId, chat);
      && a.uid == p.userId && a.gid == gid && a.expiresAt == exp
      && (a.LinkFailed? <==> issue(gid).LinkError?)
      && (a.GrantedOne? ==> a.url == issue(gid).url)
      && (a.LinkFailed? ==> a.reason == issue(gid).reason)
      && st.users == old(st.users)[p.userId := Upserted(old(st.UserOf(p.userId)), prof.username, prof.fullName, gid, exp, None, None)]
      && st.extras == old(st.extras)
      && st.payments == old(st.payments)[pid := p.(status := Approved, adminId := Some(admin))]
  {
    if !IsAdmin(cfg, admin) {
      return AdminsOnly;
    }
    var row := st.PaymentOf(pid);
    if row.None? {
      return PaymentMissing;
    }
    if row.value.status == Approved {
      return AlreadyApproved;
    }
    var uid := row.value.userId;
    var exp := ExpiryFrom(BotStart(start, now), cfg.subscriptionDays);
    var prof := ProfileOf(uid, chat);
    st.UpsertUser(uid, prof.username, prof.fullName, gid, exp, None, None);
    st.SetPaymentStatus(pid, Approved, Some(admin));
    match issue(gid)
    case LinkError(reason) =>
      a := LinkFailed(uid, gid, exp, reason);
    case Issued(url) =>
      a := GrantedOne(uid, gid, exp, url);
  }

  /** `cb_reject`: no status check, so an approved payment becomes rejected
      too; an unknown id changes nothing. */
  method Reject(cfg: Config, st: Store, admin: int, pid: int) returns (a: Answer)
    requires st.Valid()
    modifies st
    ensures st.Valid()
    ensures a == if IsAdmin(cfg, admin) then PaymentRejected(pid) else AdminsOnly
    ensures st.payments == if IsAdmin(cfg, admin) && pid in old(st.payments)
      then old(st.payments)[pid := old(st.payments[pid]).(status := Rejected, adminId := Some(admin))]
      else old(st.payments)
    ensures st.users == old(st.users) && st.extras == old(st.extras)
  {
    if !IsAdmin(cfg, admin) {
      return AdminsOnly;
    }
    st.SetPaymentStatus(pid, Rejected, Some(admin));
    a := PaymentRejected(pid);
  }

  /** Rejecting and then approving: the approval guards refuse only
      `approved`, so a rejected payment can still be approved, and a
      rejection overwrites an approval. */
  lemma DecisionsOverwrite(payments: map<int, Payment>, pid: int, admin: int)
    requires pid in payments
    ensures var rejected := payments[pid := payments[pid].(status := Rejected, adminId := Some(admin))];
      Undecided(rejected, pid)
    ensures var approved := payments[pid := payments[pid].(status := Approved, adminId := Some(admin))];
      !Undecided(approved, pid)
  {
  }
}
