/** What the bot learns from Telegram, reduced to values: a private chat's
    names, the outcome of an invite-link request and a member's role. The
    calls themselves are not modelled; their outcomes are inputs. */
module Chats {
  import opened Common
  import opened Text

  /** The fields of `bot.get_chat(uid)` that the bot reads. */
  datatype Chat = Chat(username: Option<string>, firstName: Option<string>, lastName: Option<string>)

  /** `(username, full_name)` as `fetch_user_profile` returns them. */
  datatype Profile = Profile(username: string, fullName: string)

  /** The outcome of `send_one_time_link` for one group. */
  datatype Link = Issued(url: string) | LinkError(reason: string)

  /** `get_chat_member(gid, uid).status`, as far as the kick guard cares. */
  datatype ChatRole = Creator | Administrator | OtherRole

  /** `x or ""` on an optional text. */
  function TextOr(o: Option<string>, default: string): (r: string)
    ensures Truthy(o) ==> r == o.value
    ensures !Truthy(o) ==> r == default
  {
    if Truthy(o) then o.value else default
  }

  /** `fetch_user_profile`: the username or "", the first name joined with a
      present last name and stripped, and `str(uid)` whenever that name is
      empty; a failed `get_chat` (`None`) gives `("", str(uid))`. */
  function ProfileOf(uid: int, chat: Option<Chat>): (p: Profile)
    ensures p.fullName != []
    ensures chat.None? ==> p == Profile("", IntToString(uid))
    ensures chat.Some? ==> p.username == TextOr(chat.value.username, "")
    ensures chat.Some? && Truthy(chat.value.firstName) && !Truthy(chat.value.lastName) ==>
      p.fullName == chat.value.firstName.value
    ensures chat.Some? && !Truthy(chat.value.firstName) && !Truthy(chat.value.lastName) ==>
      p.fullName == IntToString(uid)
  {
    match chat
    case None => Profile("", IntToString(uid))
    case Some(ch) =>
      var first := TextOr(ch.firstName, "");
      var full := if Truthy(ch.lastName) then Strip(first + " " + ch.lastName.value) else first;
      Profile(TextOr(ch.username, ""), if full == [] then IntToString(uid) else full)
  }

  /** When both names are given, the stored name has no surrounding
      whitespace, and it falls back to the id only when both names are blank. */
  lemma ProfileBothNames(uid: int, ch: Chat)
    requires Truthy(ch.lastName)
    ensures var p := ProfileOf(uid, Some(ch));
      var joined := Strip(TextOr(ch.firstName, "") + " " + ch.lastName.value);
      (joined != [] ==> p.fullName == joined) &&
      (joined == [] ==> p.fullName == IntToString(uid)) &&
      (p.fullName == joined ==> !IsSpace(p.fullName[0]) && !IsSpace(p.fullName[|p.fullName| - 1]))
  {
  }
}
