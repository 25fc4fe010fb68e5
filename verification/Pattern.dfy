/** The regular expressions the key rules are written in, matched against a whole text. */
module Pattern {
  import opened Wrappers

  datatype Range = Range(low: char, high: char)

  datatype Pattern =
    | OneOf(ranges: seq<Range>)
    | Then(first: Pattern, second: Pattern)
    | Many(item: Pattern, most: Option<nat>)

  predicate InRanges(c: char, ranges: seq<Range>) {
    exists i | 0 <= i < |ranges| :: ranges[i].low <= c <= ranges[i].high
  }

  ghost predicate Matches(p: Pattern, s: string)
    decreases p, |s|, 0
  {
    match p
    case OneOf(ranges) => |s| == 1 && InRanges(s[0], ranges)
    case Then(first, second) => exists k | 0 <= k <= |s| :: Matches(first, s[..k]) && Matches(second, s[k..])
    case Many(item, most) => Repeats(item, most, s)
  }

  /** `s` is empty, or an item that takes some of it and at most `most - 1` more. */
  ghost predicate Repeats(item: Pattern, most: Option<nat>, s: string)
    decreases item, |s|, 1
  {
    || s == ""
    || (most != Some(0) && exists k | 0 < k <= |s| :: Matches(item, s[..k]) && Repeats(item, OneLess(most), s[k..]))
  }

  function OneLess(most: Option<nat>): Option<nat> {
    if most.Some? && most.value > 0 then Some(most.value - 1) else most
  }

  /** Repeated single characters: all of the class, and no more of them than allowed. */
  lemma {:induction false} ManyOf(ranges: seq<Range>, most: Option<nat>, s: string)
    ensures Repeats(OneOf(ranges), most, s) <==>
            (forall c | c in s :: InRanges(c, ranges)) && (most.Some? ==> |s| <= most.value)
    decreases |s|
  {
    if s != "" {
      assert s == [s[0]] + s[1..];
      ManyOf(ranges, OneLess(most), s[1..]);
      if Repeats(OneOf(ranges), most, s) {
        var k :| 0 < k <= |s| && Matches(OneOf(ranges), s[..k]) && Repeats(OneOf(ranges), OneLess(most), s[k..]);
        assert k == 1;
      } else {
        assert Matches(OneOf(ranges), s[..1]) <==> InRanges(s[0], ranges);
      }
    }
  }

  /** A text that starts with one character of a class and goes on as `rest`. */
  lemma StartsWith(ranges: seq<Range>, rest: Pattern, s: string)
    ensures Matches(Then(OneOf(ranges), rest), s) <==> |s| > 0 && InRanges(s[0], ranges) && Matches(rest, s[1..])
  {
    if Matches(Then(OneOf(ranges), rest), s) {
      var k :| 0 <= k <= |s| && Matches(OneOf(ranges), s[..k]) && Matches(rest, s[k..]);
      assert k == 1;
    }
    if |s| > 0 && InRanges(s[0], ranges) && Matches(rest, s[1..]) {
      assert Matches(OneOf(ranges), s[..1]) && Matches(rest, s[1..]);
    }
  }

  lemma {:induction false} OneMore(item: Pattern, s: string, t: string)
    requires Repeats(item, None, s) && Matches(item, t) && t != ""
    ensures Repeats(item, None, s + t)
    decreases |s|
  {
    if s == "" {
      assert s + t == t && t[..|t|] == t && t[|t|..] == "";
      assert Matches(item, t[..|t|]) && Repeats(item, OneLess(None), t[|t|..]);
    } else {
      var k :| 0 < k <= |s| && Matches(item, s[..k]) && Repeats(item, OneLess(None), s[k..]);
      OneMore(item, s[k..], t);
      assert (s + t)[..k] == s[..k] && (s + t)[k..] == s[k..] + t;
    }
  }
}
