/** Integer-second time arithmetic: the expiry of a grant and the bot's
    "days left" figure, counted in calendar days of UTC+5. */
module Timing {

  const DAY: int := 86400
  /** The bot's fixed offset, UTC+5, in seconds. */
  const TZ_OFFSET: int := 18000

  /** The number of the UTC+5 calendar day that contains instant `t`
      (Python's floor division, which is Dafny's `/` for a positive divisor). */
  function LocalDay(t: int): int {
    (t + TZ_OFFSET) / DAY
  }

  /** `start + timedelta(days=days)`, in seconds. */
  function ExpiryFrom(start: int, days: int): int {
    start + days * DAY
  }

  /** `human_left`: no expiry (0) is reported as unset with 0 days; otherwise
      the local day of the expiry and the difference of local days. */
  datatype Left = Unset | Left(day: int, daysLeft: int)

  function HumanLeft(exp: int, now: int): Left {
    if exp == 0 then Unset else Left(LocalDay(exp), LocalDay(exp) - LocalDay(now))
  }

  /** Euclidean division by a day moves by whole days. */
  lemma DivShift(a: int, k: int)
    ensures (a + k * DAY) / DAY == a / DAY + k
  {
    var q := a / DAY;
    var r := a % DAY;
    assert a == q * DAY + r && 0 <= r < DAY;
    assert a + k * DAY == (q + k) * DAY + r;
  }

  lemma DivMonotone(a: int, b: int)
    requires a <= b
    ensures a / DAY <= b / DAY
  {
    var qa, ra := a / DAY, a % DAY;
    var qb, rb := b / DAY, b % DAY;
    assert a == qa * DAY + ra && b == qb * DAY + rb;
    assert (qa - qb) * DAY <= rb - ra < DAY;
  }

  /** An expiry exactly `k` days after now is `k` days away. */
  lemma LeftAfterWholeDays(now: int, k: int)
    requires now + k * DAY != 0
    ensures HumanLeft(now + k * DAY, now) == Left(LocalDay(now) + k, k)
  {
    DivShift(now + TZ_OFFSET, k);
    assert now + k * DAY + TZ_OFFSET == (now + TZ_OFFSET) + k * DAY;
  }

  /** A later expiry never shows fewer days left. */
  lemma LeftMonotone(e1: int, e2: int, now: int)
    requires e1 != 0 && e2 != 0 && e1 <= e2
    ensures HumanLeft(e1, now).daysLeft <= HumanLeft(e2, now).daysLeft
  {
    DivMonotone(e1 + TZ_OFFSET, e2 + TZ_OFFSET);
  }

  /** A grant in the reminder window (now < exp <= now + days*86400) shows
      between 0 and `days` days left; an expired one shows none left. */
  lemma LeftInWindow(exp: int, now: int, days: int)
    requires exp != 0
    ensures now < exp <= now + days * DAY ==> 0 <= HumanLeft(exp, now).daysLeft <= days
    ensures exp <= now ==> HumanLeft(exp, now).daysLeft <= 0
  {
    if now < exp <= now + days * DAY {
      DivMonotone(now + TZ_OFFSET, exp + TZ_OFFSET);
      DivMonotone(exp + TZ_OFFSET, now + days * DAY + TZ_OFFSET);
      DivShift(now + TZ_OFFSET, days);
      assert now + days * DAY + TZ_OFFSET == (now + TZ_OFFSET) + days * DAY;
    }
    if exp <= now {
      DivMonotone(exp + TZ_OFFSET, now + TZ_OFFSET);
    }
  }

  /** Where a grant starts: the clock, or a date the admin gave. */
  datatype StartArg = NoStart | Unparsable | Given(t: int)

  /** The bot's rule: an unparsable start date falls back to the clock. */
  function BotStart(arg: StartArg, now: int): int {
    match arg
    case Given(t) => t
    case _ => now
  }
}
