/**
 How the progression engine reads a badge's unlock condition out of its id
 (src/App.tsx:157-166): the id prefix picks the quantity ("xp_", "level_",
 "topic_"), and `parseInt(id.split('_')[1])` gives the threshold. The typed
 `BadgeRule` is what that parse yields; every other id yields `Challenge`,
 a rule the engine never satisfies.
 */
module BadgeRules {
  import opened Types

  datatype BadgeRule =
    | XpAtLeast(threshold: nat)
    | LevelAtLeast(threshold: nat)
    | TopicsAtLeast(threshold: nat)
    | Challenge

  const XpPrefix: string := "xp_"
  const LevelPrefix: string := "level_"
  const TopicPrefix: string := "topic_"

  predicate StartsWith(s: string, prefix: string) {
    |prefix| <= |s| && s[..|prefix|] == prefix
  }

  predicate IsDigit(c: char) {
    '0' <= c <= '9'
  }

  predicate AllDigits(s: string) {
    forall i :: 0 <= i < |s| ==> IsDigit(s[i])
  }

  predicate NoUnderscore(s: string) {
    forall i :: 0 <= i < |s| ==> s[i] != '_'
  }

  /** The longest prefix of `s` made of decimal digits. */
  function LeadingDigits(s: string): (r: string)
    ensures |r| <= |s| && r == s[..|r|]
    ensures AllDigits(r)
    ensures |r| < |s| ==> !IsDigit(s[|r|])
  {
    if |s| == 0 || !IsDigit(s[0]) then "" else [s[0]] + LeadingDigits(s[1..])
  }

  /** The number written by a string of decimal digits. */
  function DigitsValue(ds: string): nat
    requires AllDigits(ds)
  {
    if |ds| == 0 then 0 else DigitsValue(ds[..|ds| - 1]) * 10 + (ds[|ds| - 1] as int - '0' as int)
  }

  /**
   `parseInt` on unsigned decimal text: the value of the leading digits, or
   `None` (JavaScript's NaN) when the text does not start with a digit.
   */
  function ParseInt(s: string): (r: Option<nat>)
    ensures r.None? <==> (|s| == 0 || !IsDigit(s[0]))
  {
    var ds := LeadingDigits(s);
    if |ds| == 0 then None else Some(DigitsValue(ds))
  }

  /** The text before the first underscore of `s` (all of `s` when it has none). */
  function UpToUnderscore(s: string): (r: string)
    ensures |r| <= |s| && r == s[..|r|]
    ensures NoUnderscore(r)
    ensures |r| < |s| ==> s[|r|] == '_'
  {
    if |s| == 0 || s[0] == '_' then "" else [s[0]] + UpToUnderscore(s[1..])
  }

  /** `s.split('_')[1]`: the field after the first underscore, `None` (undefined) when there is none. */
  function SecondField(s: string): (r: Option<string>)
    ensures r.None? <==> NoUnderscore(s)
    decreases |s|
  {
    if |s| == 0 then None
    else if s[0] == '_' then Some(UpToUnderscore(s[1..]))
    else SecondField(s[1..])
  }

  /** The threshold the engine reads from an id: NaN (`None`) when the second field is missing or not a number. */
  function Threshold(id: string): Option<nat> {
    match SecondField(id)
    case None => None
    case Some(f) => ParseInt(f)
  }

  /** The rule the engine applies to a badge, derived from its id exactly as the prefix chain does. */
  function RuleOf(id: string): BadgeRule {
    if StartsWith(id, XpPrefix) then
      (match Threshold(id) case Some(n) => XpAtLeast(n) case None => Challenge)
    else if StartsWith(id, LevelPrefix) then
      (match Threshold(id) case Some(n) => LevelAtLeast(n) case None => Challenge)
    else if StartsWith(id, TopicPrefix) then
      (match Threshold(id) case Some(n) => TopicsAtLeast(n) case None => Challenge)
    else Challenge
  }

  /** Whether a rule is met by the figures the engine evaluates against. */
  predicate Holds(rule: BadgeRule, xp: int, level: int, topics: int) {
    match rule
    case XpAtLeast(n) => xp >= n
    case LevelAtLeast(n) => level >= n
    case TopicsAtLeast(n) => topics >= n
    case Challenge => false
  }

  /** Decimal text of a natural number, without leading zeros. */
  function DecimalText(n: nat): (r: string)
    ensures |r| > 0 && AllDigits(r) && NoUnderscore(r)
  {
    if n < 10 then [('0' as int + n) as char]
    else DecimalText(n / 10) + [('0' as int + n % 10) as char]
  }

  /** The id a numeric rule is written as in the badge table; `Challenge` has no such id. */
  function IdOf(rule: BadgeRule): string
    requires !rule.Challenge?
  {
    match rule
    case XpAtLeast(n) => XpPrefix + DecimalText(n)
    case LevelAtLeast(n) => LevelPrefix + DecimalText(n)
    case TopicsAtLeast(n) => TopicPrefix + DecimalText(n)
  }

  lemma {:induction false} DigitsValueOfDecimalText(n: nat)
    ensures DigitsValue(DecimalText(n)) == n
  {
    if n >= 10 {
      var s := DecimalText(n / 10);
      var t := s + [('0' as int + n % 10) as char];
      assert t[..|t| - 1] == s;
      DigitsValueOfDecimalText(n / 10);
    }
  }

  lemma {:induction false} LeadingDigitsOfDigits(s: string)
    requires AllDigits(s)
    ensures LeadingDigits(s) == s
  {
    if |s| > 0 {
      LeadingDigitsOfDigits(s[1..]);
    }
  }

  lemma {:induction false} UpToUnderscoreOfPlain(s: string)
    requires NoUnderscore(s)
    ensures UpToUnderscore(s) == s
  {
    if |s| > 0 {
      UpToUnderscoreOfPlain(s[1..]);
    }
  }

  /** Reading a prefix-only-underscore id: the second field is everything after the prefix. */
  lemma {:induction false} SecondFieldAfterPrefix(prefix: string, rest: string)
    requires |prefix| > 0 && prefix[|prefix| - 1] == '_'
    requires NoUnderscore(prefix[..|prefix| - 1]) && NoUnderscore(rest)
    ensures SecondField(prefix + rest) == Some(rest)
  {
    if |prefix| == 1 {
      assert (prefix + rest)[1..] == rest;
      UpToUnderscoreOfPlain(rest);
    } else {
      assert (prefix + rest)[0] == prefix[0];
      assert prefix[1..][..|prefix[1..]| - 1] == prefix[..|prefix| - 1][1..];
      assert (prefix + rest)[1..] == prefix[1..] + rest;
      SecondFieldAfterPrefix(prefix[1..], rest);
    }
  }

  /** Round trip: parsing the id a numeric rule is written as gives back that rule. */
  lemma RuleOfIdOf(rule: BadgeRule)
    requires !rule.Challenge?
    ensures RuleOf(IdOf(rule)) == rule
  {
    var n := rule.threshold;
    var ds := DecimalText(n);
    var prefix := if rule.XpAtLeast? then XpPrefix else if rule.LevelAtLeast? then LevelPrefix else TopicPrefix;
    assert IdOf(rule) == prefix + ds;
    assert (prefix + ds)[..|prefix|] == prefix;
    SecondFieldAfterPrefix(prefix, ds);
    LeadingDigitsOfDigits(ds);
    DigitsValueOfDecimalText(n);
    assert Threshold(IdOf(rule)) == Some(n);
    assert !StartsWith(LevelPrefix + ds, XpPrefix) by { assert (LevelPrefix + ds)[0] == 'l'; }
    assert !StartsWith(TopicPrefix + ds, XpPrefix) by { assert (TopicPrefix + ds)[0] == 't'; }
    assert !StartsWith(TopicPrefix + ds, LevelPrefix) by { assert (TopicPrefix + ds)[0] == 't'; }
  }

  /** The rule's kind is exactly the id's prefix: a numeric rule comes only from its own prefix. */
  lemma RuleOfMatchesPrefix(id: string)
    ensures RuleOf(id).XpAtLeast? ==> StartsWith(id, XpPrefix)
    ensures RuleOf(id).LevelAtLeast? ==> StartsWith(id, LevelPrefix)
    ensures RuleOf(id).TopicsAtLeast? ==> StartsWith(id, TopicPrefix)
    ensures !StartsWith(id, XpPrefix) && !StartsWith(id, LevelPrefix) && !StartsWith(id, TopicPrefix)
            ==> RuleOf(id) == Challenge
    ensures StartsWith(id, XpPrefix) && Threshold(id).Some? ==> RuleOf(id) == XpAtLeast(Threshold(id).value)
    ensures StartsWith(id, LevelPrefix) && Threshold(id).Some? ==> RuleOf(id) == LevelAtLeast(Threshold(id).value)
    ensures StartsWith(id, TopicPrefix) && Threshold(id).Some? ==> RuleOf(id) == TopicsAtLeast(Threshold(id).value)
  {
    if StartsWith(id, LevelPrefix) {
      assert id[0] == 'l';
    } else if StartsWith(id, TopicPrefix) {
      assert id[0] == 't';
    }
  }
}
