/** The welcome shown after login: visible once per day for a signed-in
    user, with an encouragement that depends on the streak. Today's date
    (the UTC date of `toISOString`) is a parameter. */
module LoginStreakWelcome {
  import opened Wrappers
  import opened Types
  import opened DataStore

  /** The effect's condition: signed in, a user, and not shown today. */
  predicate ShouldShow(isAuthenticated: bool, user: Option<UserProfile>, shown: Option<string>, today: string) {
    isAuthenticated && user.Some? && shown != Some(today)
  }

  /** `user.streak || 0`: a missing streak, or 0, is 0. */
  function StreakShown(u: UserProfile): (n: int)
    ensures u.streak.None? ==> n == 0
    ensures u.streak.Some? ==> n == u.streak.value
  {
    if u.streak.None? || u.streak.value == 0 then 0 else u.streak.value
  }

  datatype Tier = Start | Good | NearlyWeek | Warrior

  /** `getEncouragement`'s choice: 0, then below 3, then below 7, then the
      rest. */
  function TierOf(streak: int): (r: Tier)
    ensures r == Start <==> streak == 0
    ensures r == Good <==> streak != 0 && streak < 3
    ensures r == NearlyWeek <==> 3 <= streak < 7
    ensures r == Warrior <==> streak >= 7
  {
    if streak == 0 then Start
    else if streak < 3 then Good
    else if streak < 7 then NearlyWeek
    else Warrior
  }

  /** The message of a tier, as its opening words and the rest. */
  function Encouragement(t: Tier): string {
    Opening(t) + Closing(t)
  }

  function Opening(t: Tier): string {
    match t
    case Start => "Hãy "
    case Good => "Bạn đang "
    case NearlyWeek => "Tuyệt "
    case Warrior => "Bạn là "
  }

  function Closing(t: Tier): string {
    match t
    case Start => "bắt đầu chuỗi ngày học tập rực cháy ngay hôm nay nhé!"
    case Good => "làm rất tốt! Hãy duy trì ngọn lửa này."
    case NearlyWeek => "vời! Bạn đã duy trì được gần một tuần rồi đó."
    case Warrior => "một chiến binh thực thụ! Đừng để ngọn lửa này lụi tàn."
  }

  /** The four tiers give four different messages. */
  lemma EncouragementsDistinct(a: Tier, b: Tier)
    ensures a != b ==> Encouragement(a) != Encouragement(b)
  {
    var start, good, week, warrior := Encouragement(Start), Encouragement(Good),
                                      Encouragement(NearlyWeek), Encouragement(Warrior);
    assert start[0] == 'H' by { OpeningDecides("Hãy ", Closing(Start), 0); }
    assert good[0] == 'B' && good[4] == 'đ' by {
      OpeningDecides("Bạn đang ", Closing(Good), 0);
      OpeningDecides("Bạn đang ", Closing(Good), 4);
    }
    assert week[0] == 'T' by { OpeningDecides("Tuyệt ", Closing(NearlyWeek), 0); }
    assert warrior[0] == 'B' && warrior[4] == 'l' by {
      OpeningDecides("Bạn là ", Closing(Warrior), 0);
      OpeningDecides("Bạn là ", Closing(Warrior), 4);
    }
  }

  /** Helper for the text search. */
  lemma OpeningDecides(o: string, c: string, i: nat)
    requires i < |o|
    ensures (o + c)[i] == o[i]
  {
  }

  /** A user without a streak is greeted as one starting out. */
  lemma MissingStreakStarts(u: UserProfile)
    requires u.streak.None?
    ensures TierOf(StreakShown(u)) == Start
  {
  }

  class Welcome {
    var isVisible: bool
    const data: DataState

    constructor (data: DataState)
      ensures this.data == data && !isVisible
    {
      this.data := data;
      isVisible := false;
    }

    /** The effect (its one-second delay left out): show when the condition
        holds, otherwise change nothing. */
    method Effect(isAuthenticated: bool, user: Option<UserProfile>, today: string)
      modifies this`isVisible
      ensures isVisible == (old(isVisible) || ShouldShow(isAuthenticated, user, data.hasShownWelcomeStreakToday, today))
    {
      if ShouldShow(isAuthenticated, user, data.hasShownWelcomeStreakToday, today) {
        isVisible := true;
      }
    }

    /** `handleConfirm`: hide and record today, so the effect no longer
        shows the welcome today. */
    method HandleConfirm(today: string)
      modifies this`isVisible, data`hasShownWelcomeStreakToday
      ensures !isVisible && data.hasShownWelcomeStreakToday == Some(today)
      ensures forall a: bool, u: Option<UserProfile> :: !ShouldShow(a, u, data.hasShownWelcomeStreakToday, today)
    {
      isVisible := false;
      data.SetWelcomeStreakShownToday(today);
    }
  }
}
