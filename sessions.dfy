/** The bot's configuration and the conversation state it keeps in memory
    between updates: `WAIT_DATE_FOR`, `MULTI_PICK`, `WAIT_CONTACT_FOR` and
    `WAIT_FULLNAME_FOR`. */
module Sessions {
  import opened Common

  /** `ADMIN_IDS`, `GROUP_IDS`, `SUBSCRIPTION_DAYS` and `REMIND_DAYS`. */
  datatype Config = Config(adminIds: seq<int>, groupIds: seq<int>, subscriptionDays: int, remindDays: int)

  /** `is_admin`: a plain allow-list test. */
  predicate IsAdmin(cfg: Config, uid: int) {
    uid in cfg.adminIds
  }

  /** One `MULTI_PICK` entry: the payment being approved, the start date
      the keyboard carries, and the groups ticked so far. */
  datatype MultiPick = MultiPick(pid: int, startIso: Option<string>, selected: set<int>)

  /** Ticking a group: it is in the new selection exactly when it was not
      in the old one, and every other group stays as it was. */
  function Toggled(sel: set<int>, gid: int): (r: set<int>)
    ensures gid in r <==> gid !in sel
    ensures forall g :: g != gid ==> (g in r <==> g in sel)
  {
    if gid in sel then sel - {gid} else sel + {gid}
  }

  /** Ticking the same group twice restores the selection. */
  lemma ToggleTwice(sel: set<int>, gid: int)
    ensures Toggled(Toggled(sel, gid), gid) == sel
  {
  }

  class Conversations {
    /** `WAIT_DATE_FOR`: admin id to the payment waiting for a start date. */
    var waitDateFor: map<int, int>
    /** `MULTI_PICK`: admin id to its open multi-group selection. */
    var multiPick: map<int, MultiPick>
    /** `WAIT_CONTACT_FOR`: users asked for a phone number. */
    var waitContactFor: set<int>
    /** `WAIT_FULLNAME_FOR`: users asked to type their full name. */
    var waitFullnameFor: set<int>

    constructor ()
      ensures waitDateFor == map[] && multiPick == map[]
      ensures waitContactFor == {} && waitFullnameFor == {}
    {
      waitDateFor := map[];
      multiPick := map[];
      waitContactFor := {};
      waitFullnameFor := {};
    }
  }
}
