/** The user side of the bot: `/start`, accepting the terms, sending a phone
    number (as text or as a shared contact) and typing a full name, plus the
    admin's typed start date. Between messages the bot remembers who it is
    waiting for in the sets and maps of `Conversations`. */
module Registration {
  import opened Common
  import opened Text
  import opened Store
  import opened Sessions
  import opened Chats
  import opened Validators

  // ---------------------------------------------------------------- /start

  /** `cmd_start` as written: the profile is upserted with group 0 and
      expiry 0, so a returning user's grant is overwritten. */
  method CmdStartAsWritten(st: Store, uid: int, chat: Option<Chat>)
    requires st.Valid()
    modifies st
    ensures st.Valid()
    ensures var p := ProfileOf(uid, chat);
      st.users == old(st.users)[uid := Upserted(old(st.UserOf(uid)), p.username, p.fullName, 0, 0, None, None)]
    ensures st.extras == old(st.extras) && st.payments == old(st.payments)
  {
    var p := ProfileOf(uid, chat);
    st.UpsertUser(uid, p.username, p.fullName, 0, 0, None, None);
  }

  /** A paid user who sends `/start` again loses the grant: the row's expiry
      becomes 0 and its group 0, so the row drops out of every reminder and
      expiry query and the member is never warned or removed. */
  lemma StartWipesGrant(r: UserRow, p: Profile, now: int, days: int)
    requires 0 <= now < r.expiresAt
    ensures var n := Upserted(Some(r), p.username, p.fullName, 0, 0, None, None);
      && n.expiresAt == 0 && n.expiresAt != r.expiresAt && n.groupId == Some(0)
      && !IsSoon(n.expiresAt, now, days) && !IsExpired(n.expiresAt, now)
  {
    UpsertedSpec(Some(r), p.username, p.fullName, 0, 0, None, None);
    WindowsDisjoint(0, now, days);
  }

  /** `cmd_start` with the insert-or-rename rule the HTTP registration
      uses: a new user starts with no grant, a returning one keeps it. */
  method CmdStart(st: Store, uid: int, chat: Option<Chat>)
    requires st.Valid()
    modifies st
    ensures st.Valid()
    ensures var p := ProfileOf(uid, chat);
      st.users == old(st.users)[uid := Registered(old(st.UserOf(uid)), Some(p.username), p.fullName, None)]
    ensures st.extras == old(st.extras) && st.payments == old(st.payments)
  {
    var p := ProfileOf(uid, chat);
    st.Register(uid, Some(p.username), p.fullName, None);
  }

  /** With the corrected `/start` the grant, phone, consent time and course
      of a returning user survive; only the names are refreshed. */
  lemma StartKeepsGrant(r: UserRow, p: Profile)
    ensures var n := Registered(Some(r), Some(p.username), p.fullName, None);
      n == r.(username := Some(p.username), fullName := Some(p.fullName))
  {
    RegisteredSpec(Some(r), Some(p.username), p.fullName, None);
  }

  // ------------------------------------------------------------- the terms

  /** `cb_terms_agree`: the consent time is stored (on an existing row only)
      and the bot starts waiting for a phone number. */
  method TermsAgree(st: Store, ss: Conversations, uid: int, now: int)
    requires st.Valid()
    modifies st, ss
    ensures st.Valid()
    ensures st.users == if uid in old(st.users) then old(st.users)[uid := Apply(old(st.users)[uid], SetAgreed(now))] else old(st.users)
    ensures st.extras == old(st.extras) && st.payments == old(st.payments)
    ensures ss.waitContactFor == old(ss.waitContactFor) + {uid}
    ensures ss.waitFullnameFor == old(ss.waitFullnameFor)
    ensures ss.waitDateFor == old(ss.waitDateFor) && ss.multiPick == old(ss.multiPick)
  {
    st.UpdateUser(uid, SetAgreed(now));
    ss.waitContactFor := ss.waitContactFor + {uid};
  }

  // ------------------------------------------------------- a text message

  /** What the text handler answers. */
  datatype TextAnswer =
    | DateBadFormat
    | DateBadValue
    | DateNoSession
    | DateAccepted(pid: int, iso: string)
    | PhoneSaved(phone: string)
    | Ignored

  /** `on_admin_date_handler`. A sender waiting for a start date gets the
      date check and nothing else: a malformed or impossible date keeps the
      session; an accepted one closes it and, unless the stored payment id
      is 0, carries the ISO date on to the group pickers. Otherwise a sender
      waiting for a phone number who types a valid one has it stored
      (stripped) and is moved on to the name step. */
  method OnText(st: Store, ss: Conversations, uid: int, text: string) returns (a: TextAnswer)
    requires st.Valid()
    modifies st, ss
    ensures st.Valid()
    ensures uid in old(ss.waitDateFor) ==>
      && unchanged(st)
      && ss.waitContactFor == old(ss.waitContactFor) && ss.waitFullnameFor == old(ss.waitFullnameFor)
      && ss.waitDateFor == (if ReadDate(text).Accepted? then old(ss.waitDateFor) - {uid} else old(ss.waitDateFor))
      && (a == DateBadFormat <==> ReadDate(text).BadFormat?)
      && (a == DateBadValue <==> ReadDate(text).BadDate?)
      && (a.DateAccepted? <==> ReadDate(text).Accepted? && old(ss.waitDateFor[uid]) != 0)
      && (a.DateAccepted? ==> a.pid == old(ss.waitDateFor[uid]) && a.iso == ReadDate(text).iso)
    ensures uid !in old(ss.waitDateFor) ==>
      && ss.waitDateFor == old(ss.waitDateFor)
      && (a.PhoneSaved? <==> uid in old(ss.waitContactFor) && PhoneOk(Strip(text)))
      && (a.PhoneSaved? ==>
            && a.phone == Strip(text)
            && st.users == (if uid in old(st.users) then old(st.users)[uid := Apply(old(st.users)[uid], SetPhone(a.phone))] else old(st.users))
            && ss.waitContactFor == old(ss.waitContactFor) - {uid}
            && ss.waitFullnameFor == old(ss.waitFullnameFor) + {uid})
      && (!a.PhoneSaved? ==> a == Ignored && unchanged(st) && unchanged(ss))
    ensures st.extras == old(st.extras) && st.payments == old(st.payments)
    ensures ss.multiPick == old(ss.multiPick)
  {
    if uid in ss.waitDateFor {
      match ReadDate(text)
      case BadFormat =>
        return DateBadFormat;
      case BadDate =>
        return DateBadValue;
      case Accepted(_, _, _, iso) =>
        var pid := ss.waitDateFor[uid];
        ss.waitDateFor := ss.waitDateFor - {uid};
        if pid == 0 {
          return DateNoSession;
        }
        return DateAccepted(pid, iso);
    }
    var t := Strip(text);
    if uid in ss.waitContactFor && PhoneOk(t) {
      st.UpdateUser(uid, SetPhone(t));
      ss.waitContactFor := ss.waitContactFor - {uid};
      ss.waitFullnameFor := ss.waitFullnameFor + {uid};
      return PhoneSaved(t);
    }
    return Ignored;
  }

  // -------------------------------------------------------- a shared contact

  /** A shared contact card. */
  datatype Contact = Contact(phone: string, firstName: Option<string>, lastName: Option<string>)

  /** The name `on_contact` derives: the contact's first name (with its last
      name if present, not stripped); failing that the sender's own names,
      joined and stripped. */
  function ContactName(c: Contact, sender: Chat): (name: string)
    ensures Truthy(c.firstName) ==> name != [] && StartsWith(name, c.firstName.value)
    ensures Truthy(c.firstName) && !Truthy(c.lastName) ==> name == c.firstName.value
    ensures !Truthy(c.firstName) ==> name == [] || (!IsSpace(name[0]) && !IsSpace(name[|name| - 1]))
  {
    if Truthy(c.firstName) then
      c.firstName.value + (if Truthy(c.lastName) then " " + c.lastName.value else "")
    else
      Strip(TextOr(sender.firstName, "") + (if Truthy(sender.lastName) then " " + sender.lastName.value else ""))
  }

  /** What the contact handler answers. */
  datatype ContactAnswer = NameFromContact(name: string) | AskName | NotWaiting

  /** `on_contact`: only for a sender waiting for a phone number. The phone
      is stored, the phone step ends, and the derived name is stored; when
      no name can be derived the bot waits for a typed one instead. */
  method OnContact(st: Store, ss: Conversations, uid: int, c: Contact, sender: Chat) returns (a: ContactAnswer)
    requires st.Valid()
    modifies st, ss
    ensures st.Valid()
    ensures a == NotWaiting <==> uid !in old(ss.waitContactFor)
    ensures a == NotWaiting ==> unchanged(st) && unchanged(ss)
    ensures a != NotWaiting ==>
      var name := ContactName(c, sender);
      && ss.waitContactFor == old(ss.waitContactFor) - {uid}
      && (a == NameFromContact(name) <==> name != [])
      && (a == AskName <==> name == [])
      && ss.waitFullnameFor == (if name == [] then old(ss.waitFullnameFor) + {uid} else old(ss.waitFullnameFor))
      && st.users == (if uid !in old(st.users) then old(st.users)
                      else if name == [] then old(st.users)[uid := Apply(old(st.users)[uid], SetPhone(c.phone))]
                      else old(st.users)[uid := Apply(Apply(old(st.users)[uid], SetPhone(c.phone)), SetFullName(name))])
    ensures st.extras == old(st.extras) && st.payments == old(st.payments)
    ensures ss.waitDateFor == old(ss.waitDateFor) && ss.multiPick == old(ss.multiPick)
  {
    if uid !in ss.waitContactFor {
      return NotWaiting;
    }
    st.UpdateUser(uid, SetPhone(c.phone));
    ss.waitContactFor := ss.waitContactFor - {uid};
    var name := ContactName(c, sender);
    if name != [] {
      st.UpdateUser(uid, SetFullName(name));
      a := NameFromContact(name);
    } else {
      ss.waitFullnameFor := ss.waitFullnameFor + {uid};
      a := AskName;
    }
  }

  // ---------------------------------------------------------- a typed name

  /** The handler's filter: non-empty text of at least 3 characters once stripped. */
  predicate NameFilter(text: string) {
    text != [] && |Strip(text)| >= 3
  }

  /** `on_fullname_text`: a sender waiting for a name whose text passes the
      filter has the stripped text stored and leaves the name step. */
  method OnFullnameText(st: Store, ss: Conversations, uid: int, text: string) returns (saved: bool)
    requires st.Valid()
    modifies st, ss
    ensures st.Valid()
    ensures saved <==> NameFilter(text) && uid in old(ss.waitFullnameFor)
    ensures saved ==>
      && st.users == (if uid in old(st.users) then old(st.users)[uid := Apply(old(st.users)[uid], SetFullName(Strip(text)))] else old(st.users))
      && ss.waitFullnameFor == old(ss.waitFullnameFor) - {uid}
    ensures !saved ==> unchanged(st) && unchanged(ss)
    ensures st.extras == old(st.extras) && st.payments == old(st.payments)
    ensures ss.waitContactFor == old(ss.waitContactFor) && ss.waitDateFor == old(ss.waitDateFor)
    ensures ss.multiPick == old(ss.multiPick)
  {
    saved := NameFilter(text) && uid in ss.waitFullnameFor;
    if saved {
      st.UpdateUser(uid, SetFullName(Strip(text)));
      ss.waitFullnameFor := ss.waitFullnameFor - {uid};
    }
  }

  /** A stored typed name is at least 3 characters with no surrounding
      whitespace. */
  lemma TypedNameShape(text: string)
    requires NameFilter(text)
    ensures var n := Strip(text); |n| >= 3 && !IsSpace(n[0]) && !IsSpace(n[|n| - 1])
  {
  }
}
