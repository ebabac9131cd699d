/** The moment of the day the home screen greets the user by, from the local
    hour, and the greeting and icon that go with it. The hour is passed in;
    the source reads it from the clock. */
module DayMoment {

  datatype Moment = Sleep | Morning | Afternoon | Night

  /** `getDayMoment` */
  function MomentOf(hour: int): (m: Moment)
    ensures 0 <= hour < 24 ==> FirstHour(m) <= hour < FirstHour(m) + 6
    ensures m == Night <==> !(0 <= hour < 18)
  {
    if 0 <= hour < 6 then Sleep
    else if 6 <= hour < 12 then Morning
    else if 12 <= hour < 18 then Afternoon
    else Night
  }

  /** The first hour of each moment on a 0..23 clock. */
  function FirstHour(m: Moment): (h: nat)
    ensures h < 24 && h % 6 == 0
  {
    match m
    case Sleep => 0
    case Morning => 6
    case Afternoon => 12
    case Night => 18
  }

  /** Every clock hour belongs to exactly one moment: the moment whose six-hour
      block, starting at its first hour, contains it. */
  lemma MomentBlocks(hour: int, m: Moment)
    requires 0 <= hour < 24
    ensures MomentOf(hour) == m <==> FirstHour(m) <= hour < FirstHour(m) + 6
  {
  }

  /** Hours before six sleep, the morning is 6..11, the afternoon 12..17, and
      every other hour, on or off the clock, is night. */
  lemma MomentRanges(hour: int)
    ensures MomentOf(hour) == Sleep <==> 0 <= hour < 6
    ensures MomentOf(hour) == Morning <==> 6 <= hour < 12
    ensures MomentOf(hour) == Afternoon <==> 12 <= hour < 18
    ensures MomentOf(hour) == Night <==> hour < 0 || hour >= 18
  {
  }

  /** Moments follow each other through the day and never go back. */
  lemma MomentMonotone(h1: int, h2: int)
    requires 0 <= h1 <= h2 < 24
    ensures FirstHour(MomentOf(h1)) <= FirstHour(MomentOf(h2))
  {
  }

  /** `getGreeting` */
  function Greeting(m: Moment): (g: string)
    ensures g == "Buenas noches" <==> m == Sleep || m == Night
  {
    match m
    case Morning => "Buenos días"
    case Afternoon => "Buenas tardes"
    case _ => "Buenas noches"
  }

  /** `getGreetingIcon`: the moon goes with "good night", the sun with "good
      morning". */
  function Icon(m: Moment): (i: string)
    ensures i == "🌚" <==> Greeting(m) == "Buenas noches"
    ensures i == "☀️" <==> Greeting(m) == "Buenos días"
  {
    match m
    case Morning => "☀️"
    case Afternoon => "🌤️"
    case _ => "🌚"
  }

  /** Greeting and icon by the hour: "good morning" with a sun from 6 to 11,
      "good afternoon" with a cloudy sun from 12 to 17, "good night" with a
      moon at any other hour. */
  lemma GreetingByHour(hour: int)
    requires 0 <= hour < 24
    ensures Greeting(MomentOf(hour)) == "Buenos días" <==> 6 <= hour < 12
    ensures Greeting(MomentOf(hour)) == "Buenas tardes" <==> 12 <= hour < 18
    ensures Icon(MomentOf(hour)) == "☀️" <==> 6 <= hour < 12
    ensures Icon(MomentOf(hour)) == "🌤️" <==> 12 <= hour < 18
    ensures Greeting(MomentOf(hour)) == "Buenas noches" <==> hour < 6 || hour >= 18
  {
  }
}
