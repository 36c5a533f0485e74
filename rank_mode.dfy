/** Rank-mode validation and the mapping to the API's ranking tokens. */
module RankMode {
  import opened Wrappers

  /** The eight leaderboards of `rank_modes`. */
  datatype Mode = Day | Week | Month | Male | Female | Original | Rookie | Manga

  /** The spelling of each mode in `rank_modes`. */
  function ModeName(m: Mode): string
  {
    match m
    case Day => "day"
    case Week => "week"
    case Month => "month"
    case Male => "male"
    case Female => "female"
    case Original => "original"
    case Rookie => "rookie"
    case Manga => "manga"
  }

  /** `mode in rank_modes`, returning which mode it names. */
  function ParseRankMode(mode: string): (r: Option<Mode>)
    ensures r.Some? ==> ModeName(r.value) == mode
    ensures r.None? ==> forall m: Mode :: ModeName(m) != mode
  {
    if mode == "day" then Some(Day)
    else if mode == "week" then Some(Week)
    else if mode == "month" then Some(Month)
    else if mode == "male" then Some(Male)
    else if mode == "female" then Some(Female)
    else if mode == "original" then Some(Original)
    else if mode == "rookie" then Some(Rookie)
    else if mode == "manga" then Some(Manga)
    else None
  }

  /** Every mode's own spelling is accepted as that mode. */
  lemma ParseRankModeName(m: Mode)
    ensures ParseRankMode(ModeName(m)) == Some(m)
  {
  }

  /** The prefix the API's token carries: male, female and manga rank daily, original and rookie weekly. */
  function RankPrefix(m: Mode): string
  {
    match m
    case Male | Female | Manga => "day_"
    case Original | Rookie => "week_"
    case Day | Week | Month => ""
  }

  /** The mode token the ranking requests are sent with. */
  function ApiToken(m: Mode): (t: string)
    ensures |t| > 0
  {
    RankPrefix(m) + ModeName(m)
  }

  /** The eight tokens the ranking requests use. */
  lemma ApiTokenValues()
    ensures ApiToken(Day) == "day" && ApiToken(Week) == "week" && ApiToken(Month) == "month"
    ensures ApiToken(Male) == "day_male" && ApiToken(Female) == "day_female" && ApiToken(Manga) == "day_manga"
    ensures ApiToken(Original) == "week_original" && ApiToken(Rookie) == "week_rookie"
  {
  }

  /** The mode a ranking token was made from: a `day_` or `week_` prefix removed. */
  function StripRankPrefix(token: string): string
  {
    if |token| > 4 && token[..4] == "day_" then token[4..]
    else if |token| > 5 && token[..5] == "week_" then token[5..]
    else token
  }

  /** Stripping the prefix of a token gives back the name of its mode. */
  lemma ApiTokenInvertible(m: Mode)
    ensures StripRankPrefix(ApiToken(m)) == ModeName(m)
  {
    var t := ApiToken(m);
    var name := ModeName(m);
    if RankPrefix(m) == "day_" {
      assert t[..4] == "day_" && t[4..] == name;
    } else if RankPrefix(m) == "week_" {
      assert t[0] == 'w';
      assert t[..5] == "week_" && t[5..] == name;
    } else {
      assert t == name;
      assert |name| < 4 || name[..4] != "day_" by { assert name[0] != 'd' || name == "day"; }
      assert |name| < 5 || name[..5] != "week_" by { assert name[0] != 'w' || name == "week"; }
    }
  }

  /** Different modes query different rankings. */
  lemma ApiTokenInjective(m1: Mode, m2: Mode)
    requires m1 != m2
    ensures ApiToken(m1) != ApiToken(m2)
  {
    ApiTokenInvertible(m1);
    ApiTokenInvertible(m2);
    ParseRankModeName(m1);
    ParseRankModeName(m2);
  }
}
