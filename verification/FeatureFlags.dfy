/** Feature flags: role and region allow-lists and a percentage rollout by hashed user id. */
module FeatureFlags {

  import opened Prelude

  /** A string as UTF-16 code units. */
  type Unit = c: int | 0 <= c < 0x1_0000
  type Text = seq<Unit>

  // ---------- The hash ----------

  const TWO_31 := 0x8000_0000
  const TWO_32 := 0x1_0000_0000

  /** The signed 32-bit integer congruent to `x`. */
  function Wrap32(x: int): (r: int)
    ensures -TWO_31 <= r < TWO_31
  {
    (x + TWO_31) % TWO_32 - TWO_31
  }

  function Power(base: int, n: nat): int {
    if n == 0 then 1 else base * Power(base, n - 1)
  }

  /** The base-31 polynomial of the code units, over the integers. */
  function Polynomial(s: Text): int {
    if s == [] then 0 else s[0] * Power(31, |s| - 1) + Polynomial(s[1..])
  }

  lemma {:induction false} Horner(s: Text, c: Unit)
    ensures Polynomial(s + [c]) == 31 * Polynomial(s) + c
  {
    if s == [] {
      assert [c][1..] == [] && Power(31, 0) == 1;
    } else {
      Horner(s[1..], c);
      var head := s[0];
      assert (s + [c])[1..] == s[1..] + [c];
      assert head * (31 * Power(31, |s| - 1)) == 31 * (head * Power(31, |s| - 1));
    }
  }

  lemma WrapOffset(x: int) returns (k: int)
    ensures Wrap32(x) == x - k * TWO_32
  {
    k := (x + TWO_31) / TWO_32;
  }

  lemma WrapCongruent(x: int, k: int)
    ensures Wrap32(x - k * TWO_32) == Wrap32(x)
  {
    var i := WrapOffset(x);
    var j := WrapOffset(x - k * TWO_32);
    assert Wrap32(x) - Wrap32(x - k * TWO_32) == (j + k - i) * TWO_32;
  }

  /** `(hash << 5) - hash + c`, wrapped twice as the loop does, loses nothing. */
  lemma WrapStep(p: int, c: int)
    ensures Wrap32(Wrap32(Wrap32(p) * 32) - Wrap32(p) + c) == Wrap32(31 * p + c)
  {
    var i := WrapOffset(p);
    var j := WrapOffset(Wrap32(p) * 32);
    assert Wrap32(Wrap32(p) * 32) - Wrap32(p) + c == 31 * p + c - (31 * i + j) * TWO_32;
    WrapCongruent(31 * p + c, 31 * i + j);
  }

  method HashString(str: Text) returns (hash: nat)
    ensures hash == Hash(str)
  {
    var h := 0;
    for i := 0 to |str|
      invariant h == Wrap32(Polynomial(str[..i]))
    {
      WrapStep(Polynomial(str[..i]), str[i]);
      Horner(str[..i], str[i]);
      assert str[..i + 1] == str[..i] + [str[i]];
      h := Wrap32(h * 32) - h + str[i];
      h := Wrap32(h);
    }
    assert str[..|str|] == str;
    return if h < 0 then -h else h;
  }

  /** The absolute value of the wrapped polynomial. */
  function Hash(str: Text): (hash: nat)
    ensures hash <= TWO_31
  {
    var h := Wrap32(Polynomial(str));
    if h < 0 then -h else h
  }

  // ---------- The decision ----------

  datatype Rule = Rule(enabled: bool, percentageRollout: Option<real>, allowedRoles: Option<seq<Text>>,
                       allowedRegions: Option<seq<Text>>)

  datatype Context = Context(userId: Option<Text>, role: Option<Text>, region: Option<Text>)

  /** Missing and empty strings are both falsy. */
  predicate Present(t: Option<Text>) {
    t.Some? && t.value != []
  }

  predicate Allowed(list: Option<seq<Text>>, value: Option<Text>) {
    list.Some? && Present(value) ==> value.value in list.value
  }

  predicate InRollout(rollout: Option<real>, userId: Option<Text>) {
    rollout.Some? && rollout.value < 100.0 ==> Present(userId) && (Hash(userId.value) % 100) as real < rollout.value
  }

  predicate Decision(rule: Rule, context: Context) {
    rule.enabled && Allowed(rule.allowedRoles, context.role) && Allowed(rule.allowedRegions, context.region)
    && InRollout(rule.percentageRollout, context.userId)
  }

  class FeatureFlagService {
    var flags: map<string, Rule>

    constructor ()
      ensures flags == map[]
    {
      flags := map[];
    }

    method SetFlag(flagName: string, rule: Rule)
      modifies this
      ensures flags == old(flags)[flagName := rule]
    {
      flags := flags[flagName := rule];
    }

    method IsEnabled(flagName: string, context: Context) returns (enabled: bool)
      ensures enabled <==> flagName in flags && Decision(flags[flagName], context)
    {
      if flagName !in flags || !flags[flagName].enabled {
        return false;
      }
      var rule := flags[flagName];
      if rule.allowedRoles.Some? && Present(context.role) {
        if context.role.value !in rule.allowedRoles.value {
          return false;
        }
      }
      if rule.allowedRegions.Some? && Present(context.region) {
        if context.region.value !in rule.allowedRegions.value {
          return false;
        }
      }
      if rule.percentageRollout.Some? && rule.percentageRollout.value < 100.0 {
        if !Present(context.userId) {
          return false;
        }
        var hash := HashString(context.userId.value);
        var userBucket := hash % 100;
        return (userBucket as real) < rule.percentageRollout.value;
      }
      return true;
    }
  }

  /** What disables a flag, and nothing else does: the flag itself, a role or region outside its
      list, and a rollout below 100 percent for a user without id or with a bucket not below it.
      A missing or empty role or region is not restricted. */
  lemma DisabledExact(rule: Rule, context: Context)
    ensures !Decision(rule, context) <==>
      || !rule.enabled
      || (rule.allowedRoles.Some? && context.role.Some? && context.role.value != []
          && context.role.value !in rule.allowedRoles.value)
      || (rule.allowedRegions.Some? && context.region.Some? && context.region.value != []
          && context.region.value !in rule.allowedRegions.value)
      || (rule.percentageRollout.Some? && rule.percentageRollout.value < 100.0
          && (context.userId.None? || context.userId.value == []
              || rule.percentageRollout.value <= (Hash(context.userId.value) % 100) as real))
  {
  }

  /** The hash is the distance of the polynomial from a multiple of 2^32, counted with the sign of a
      32-bit integer. */
  lemma HashCongruent(str: Text) returns (k: int)
    ensures var h := Polynomial(str) - k * 0x1_0000_0000;
      -0x8000_0000 <= h < 0x8000_0000 && Hash(str) == if h < 0 then -h else h
  {
    k := WrapOffset(Polynomial(str));
  }

  /** A rollout at or above 100 percent, or none at all, admits everyone. */
  predicate AtLeast(to: Option<real>, from: Option<real>) {
    to.None? || to.value >= 100.0 || (from.Some? && from.value <= to.value)
  }

  /** Raising the rollout of a flag never disables it for anyone. */
  lemma RolloutMonotone(rule: Rule, to: Option<real>, context: Context)
    requires Decision(rule, context) && AtLeast(to, rule.percentageRollout)
    ensures Decision(rule.(percentageRollout := to), context)
  {
  }

  /** Whole percentages admit exactly the users whose bucket, a fixed number from 0 to 99, is
      below them, so a rollout step from `p` to `p + 1` adds exactly bucket `p`. */
  lemma RolloutStep(rule: Rule, p: nat, context: Context)
    requires p < 100 && rule.enabled && Allowed(rule.allowedRoles, context.role)
      && Allowed(rule.allowedRegions, context.region)
    requires Present(context.userId)
    ensures Decision(rule.(percentageRollout := Some((p + 1) as real)), context) <==>
      Decision(rule.(percentageRollout := Some(p as real)), context) || Hash(context.userId.value) % 100 == p
  {
    assert 0 <= Hash(context.userId.value) % 100 < 100;
  }
}
