/**
 * The three console parsers of pixiv.py: `member`, `rank` and `tag`.
 * Each takes the whitespace-separated tokens after the keyword and
 * decides which search to start and with which arguments, or which
 * error message to show.  A parser never checks an id or a rank mode
 * itself; that is left to the search it calls.
 */
module Commands {
  import opened Text
  import RankMode

  /** Default arguments of `search_by_member`, `search_by_rank` and `search_by_tags`. */
  const DefaultMemberQuantity: nat := 5
  const DefaultRankMode: string := "day"
  const DefaultRankQuantity: nat := 30
  const DefaultTagQuantity: nat := 10
  const DefaultTagPopularity: nat := 0

  /** A search with the arguments a parser hands to it. */
  datatype Request =
    | MemberRequest(id: string, quantity: nat)
    | RankRequest(mode: string, quantity: nat)
    | TagRequest(tags: seq<string>, quantity: nat, popu: nat)

  /** The two error messages a parser can print. */
  datatype CommandError = IllegalQuantity | IllegalCommand

  /**
   * What a parser does: start one search, print one error message, or,
   * for a `tag` command without arguments, nothing at all.
   */
  datatype Dispatch = Call(request: Request) | Fail(error: CommandError) | Silent

  /** `token` is the numeral of `n`, possibly with leading zeros: what `int(token) == n` means for a `\d+` token. */
  predicate Spells(token: string, n: nat) {
    token == ZFill(NatToString(n), |token|)
  }

  /** `parse_command_member`: an id, optionally followed by a quantity. */
  function ParseMember(args: seq<string>): (d: Dispatch)
    ensures !d.Silent?
    ensures d.Call? <==> |args| == 1 || (|args| == 2 && IsDigits(args[1]))
    ensures d == Fail(IllegalQuantity) <==> |args| == 2 && !IsDigits(args[1])
    ensures d == Fail(IllegalCommand) <==> |args| != 1 && |args| != 2
    ensures d.Call? ==> d.request.MemberRequest? && d.request.id == args[0]
    ensures d.Call? && |args| == 1 ==> d.request.quantity == DefaultMemberQuantity
    ensures d.Call? && |args| == 2 ==> Spells(args[1], d.request.quantity)
  {
    if |args| == 1 then
      Call(MemberRequest(args[0], DefaultMemberQuantity))
    else if |args| == 2 then
      if IsDigits(args[1]) then
        DigitTokenSpelling(args[1]);
        Call(MemberRequest(args[0], ParseDigits(args[1])))
      else
        Fail(IllegalQuantity)
    else
      Fail(IllegalCommand)
  }

  /** `parse_command_rank`: a mode and a quantity, either, both in either order, or neither. */
  function ParseRank(args: seq<string>): (d: Dispatch)
    ensures !d.Silent? && d != Fail(IllegalQuantity)
    ensures d.Fail? <==> |args| > 2 || (|args| == 2 && !IsDigits(args[0]) && !IsDigits(args[1]))
    ensures d.Call? ==> d.request.RankRequest?
    ensures d.Call? ==> d.request.mode in args + [DefaultRankMode]
    ensures d.Call? && |args| == 0 ==> d.request == RankRequest(DefaultRankMode, DefaultRankQuantity)
    ensures d.Call? && |args| == 1 && !IsDigits(args[0]) ==> d.request == RankRequest(args[0], DefaultRankQuantity)
    ensures d.Call? && |args| == 1 && IsDigits(args[0]) ==>
      d.request.mode == DefaultRankMode && Spells(args[0], d.request.quantity)
    ensures d.Call? && |args| == 2 && IsDigits(args[0]) ==>
      d.request.mode == args[1] && Spells(args[0], d.request.quantity)
    ensures d.Call? && |args| == 2 && !IsDigits(args[0]) ==>
      d.request.mode == args[0] && Spells(args[1], d.request.quantity)
  {
    if |args| == 0 then
      Call(RankRequest(DefaultRankMode, DefaultRankQuantity))
    else if |args| == 1 then
      if IsDigits(args[0]) then
        DigitTokenSpelling(args[0]);
        Call(RankRequest(DefaultRankMode, ParseDigits(args[0])))
      else
        Call(RankRequest(args[0], DefaultRankQuantity))
    else if |args| == 2 then
      if IsDigits(args[0]) then
        DigitTokenSpelling(args[0]);
        Call(RankRequest(args[1], ParseDigits(args[0])))
      else if IsDigits(args[1]) then
        DigitTokenSpelling(args[1]);
        Call(RankRequest(args[0], ParseDigits(args[1])))
      else
        Fail(IllegalCommand)
    else
      Fail(IllegalCommand)
  }

  /**
   * `parse_command_tags`: one or more tags, optionally followed by a
   * quantity, optionally followed by a popularity floor.  Trailing
   * numbers are read from the end, and a trailing token that is not a
   * number makes every token a tag.
   */
  function ParseTags(args: seq<string>): (d: Dispatch)
    ensures !d.Fail?
    ensures d.Silent? <==> |args| == 0
    ensures d.Call? ==> d.request.TagRequest?
    ensures d.Call? ==> 1 <= |d.request.tags| <= |args| && d.request.tags == args[..|d.request.tags|]
    ensures d.Call? ==> |args| - 2 <= |d.request.tags|
    ensures d.Call? && |d.request.tags| < |args| ==> Spells(args[|d.request.tags|], d.request.quantity)
    ensures d.Call? && |d.request.tags| == |args| ==> d.request.quantity == DefaultTagQuantity
    ensures d.Call? && |d.request.tags| + 2 == |args| ==> Spells(args[|args| - 1], d.request.popu)
    ensures d.Call? && |d.request.tags| + 2 > |args| ==> d.request.popu == DefaultTagPopularity
  {
    var n := |args|;
    if n == 0 then
      Silent
    else if n == 1 then
      Call(TagRequest(args, DefaultTagQuantity, DefaultTagPopularity))
    else if n == 2 then
      if IsDigits(args[1]) then
        DigitTokenSpelling(args[1]);
        Call(TagRequest(args[..1], ParseDigits(args[1]), DefaultTagPopularity))
      else
        Call(TagRequest(args, DefaultTagQuantity, DefaultTagPopularity))
    else if IsDigits(args[n - 1]) then
      DigitTokenSpelling(args[n - 1]);
      if IsDigits(args[n - 2]) then
        DigitTokenSpelling(args[n - 2]);
        Call(TagRequest(args[..n - 2], ParseDigits(args[n - 2]), ParseDigits(args[n - 1])))
      else
        Call(TagRequest(args[..n - 1], ParseDigits(args[n - 1]), DefaultTagPopularity))
    else
      Call(TagRequest(args, DefaultTagQuantity, DefaultTagPopularity))
  }

  /**
   * Which trailing tokens `parse_command_tags` reads as numbers: the last
   * token only if it is `\d+`, and the one before it as well only if there
   * are at least three tokens and it is `\d+` too.
   */
  lemma ParseTagsTagCount(args: seq<string>)
    ensures |args| == 1 || (|args| >= 2 && !IsDigits(args[|args| - 1])) ==>
      ParseTags(args) == Call(TagRequest(args, DefaultTagQuantity, DefaultTagPopularity))
    ensures |args| == 2 && IsDigits(args[1]) ==> ParseTags(args).Call? && |ParseTags(args).request.tags| == 1
    ensures |args| >= 3 && IsDigits(args[|args| - 1]) ==>
      ParseTags(args).Call? && |ParseTags(args).request.tags| == if IsDigits(args[|args| - 2]) then |args| - 2 else |args| - 1
  {
  }

  /** A member command written with a numeral quantity, or with none, is read back as written. */
  lemma ParseMemberRoundTrip(id: string, quantity: nat)
    ensures ParseMember([id, NatToString(quantity)]) == Call(MemberRequest(id, quantity))
    ensures ParseMember([id]) == Call(MemberRequest(id, DefaultMemberQuantity))
  {
  }

  /** No rank mode name is a number, so a mode can never be taken for a quantity. */
  lemma ModeNameNotDigits(m: RankMode.Mode)
    ensures !IsDigits(RankMode.ModeName(m))
  {
    assert !IsDigit(RankMode.ModeName(m)[0]);
  }

  /**
   * A rank command with a mode that is not a number and a numeral
   * quantity is read back as written, in either order, and either part
   * alone gets the other's default.
   */
  lemma ParseRankRoundTrip(mode: string, quantity: nat)
    requires !IsDigits(mode)
    ensures ParseRank([mode, NatToString(quantity)]) == Call(RankRequest(mode, quantity))
    ensures ParseRank([NatToString(quantity), mode]) == Call(RankRequest(mode, quantity))
    ensures ParseRank([mode]) == Call(RankRequest(mode, DefaultRankQuantity))
    ensures ParseRank([NatToString(quantity)]) == Call(RankRequest(DefaultRankMode, quantity))
  {
  }

  /** Tags followed by a numeral quantity and a numeral floor are read back as written. */
  lemma ParseTagsRoundTrip(tags: seq<string>, quantity: nat, popu: nat)
    requires |tags| >= 1
    ensures ParseTags(tags + [NatToString(quantity), NatToString(popu)]) == Call(TagRequest(tags, quantity, popu))
  {
    var args := tags + [NatToString(quantity), NatToString(popu)];
    assert args[..|args| - 2] == tags;
  }

  /**
   * Tags followed by just a numeral quantity are read back as written,
   * unless there are several tags and the last one is itself a number:
   * then that tag is read as the quantity.
   */
  lemma ParseTagsQuantityRoundTrip(tags: seq<string>, quantity: nat)
    requires |tags| == 1 || (|tags| > 1 && !IsDigits(tags[|tags| - 1]))
    ensures ParseTags(tags + [NatToString(quantity)]) == Call(TagRequest(tags, quantity, DefaultTagPopularity))
  {
    var args := tags + [NatToString(quantity)];
    assert args[..|args| - 1] == tags;
  }

  /** Tags alone get both defaults, under the same condition on the last tag. */
  lemma ParseTagsDefaults(tags: seq<string>)
    requires |tags| == 1 || (|tags| > 1 && !IsDigits(tags[|tags| - 1]))
    ensures ParseTags(tags) == Call(TagRequest(tags, DefaultTagQuantity, DefaultTagPopularity))
  {
  }

  /** The tag command `miku 0` asks for zero illustrations with no popularity floor. */
  lemma ZeroQuantityTagCommand()
    ensures ParseTags(["miku", "0"]) == Call(TagRequest(["miku"], 0, 0))
  {
    ParseTagsQuantityRoundTrip(["miku"], 0);
    assert NatToString(0) == "0";
    assert ["miku"] + [NatToString(0)] == ["miku", "0"];
  }

  /** A quantity written with a leading zero is still a quantity: `tag a 05` asks for five records tagged `a`. */
  lemma PaddedQuantityTagCommand()
    ensures ParseTags(["a", "05"]) == Call(TagRequest(["a"], 5, DefaultTagPopularity))
  {
    assert IsDigits("05");
    assert ParseDigits("05") == ParseDigits("0") * 10 + 5;
  }
}
