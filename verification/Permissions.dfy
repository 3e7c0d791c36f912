/** The permission checker of engine/permissions.go: rules, roles and per-user overrides. */
module Permissions {
  import opened Wildcard
  import opened MatchPatterns

  // ---------------------------------------------------------------- permission masks

  /** A Go int used as a mask, as the set of the positions of its one bits. */
  type Permission = set<nat>

  const PERM_NONE: Permission := {}
  const PERM_SUBSCRIBE: Permission := {1}
  const PERM_PUBLISH: Permission := {2}
  const PERM_PRESENCE: Permission := {3}
  const PERM_HISTORY: Permission := {4}
  const PERM_JOIN_LEAVE: Permission := {5}

  /** p & perm == perm */
  predicate Has(p: Permission, perm: Permission) {
    p * perm == perm
  }

  lemma HasFlag(p: Permission, flag: nat)
    ensures Has(p, {flag}) <==> flag in p
  {
    if Has(p, {flag}) {
      assert flag in p * {flag};
    }
  }

  /** p | perm */
  function Add(p: Permission, perm: Permission): Permission {
    p + perm
  }

  // ---------------------------------------------------------------- rules and roles

  datatype ChannelRule = ChannelRule(pattern: Bytes, defaultPermissions: Permission, requireAuth: bool, allowAnonymous: bool)

  /** The first rule whose pattern matches, or the default. */
  function FirstRule(rules: seq<ChannelRule>, default: ChannelRule, channel: Bytes): (r: ChannelRule)
    ensures r == default || r in rules
  {
    if rules == [] then default
    else if Matches(rules[0].pattern, channel) then rules[0]
    else FirstRule(rules[1..], default, channel)
  }

  predicate Unruled(rules: seq<ChannelRule>, channel: Bytes) {
    rules == [] || (!Matches(rules[0].pattern, channel) && Unruled(rules[1..], channel))
  }

  lemma {:induction false} FirstRuleSkips(rules: seq<ChannelRule>, default: ChannelRule, channel: Bytes, i: nat)
    requires i <= |rules| && forall k | 0 <= k < i :: !Matches(rules[k].pattern, channel)
    ensures i < |rules| && Matches(rules[i].pattern, channel) ==> FirstRule(rules, default, channel) == rules[i]
    ensures i == |rules| ==> FirstRule(rules, default, channel) == default
  {
    if i > 0 {
      FirstRuleSkips(rules[1..], default, channel, i - 1);
    }
  }

  /** base with what each listed role grants added, in the order listed. */
  function Grant(base: Permission, grants: map<string, Permission>, roles: seq<string>): Permission {
    if roles == [] then base
    else
      var p := Grant(base, grants, roles[..|roles| - 1]);
      var role := roles[|roles| - 1];
      if role in grants then Add(p, grants[role]) else p
  }

  function Held(roles: seq<string>): set<string> {
    set role | role in roles
  }

  /** A flag is granted by the base or by some held role that has it. */
  lemma {:induction false} GrantedFlags(base: Permission, grants: map<string, Permission>, roles: seq<string>, flag: nat)
    ensures flag in Grant(base, grants, roles) <==>
            flag in base || exists role | role in Held(roles) && role in grants :: flag in grants[role]
  {
    if roles != [] {
      var last := |roles| - 1;
      GrantedFlags(base, grants, roles[..last], flag);
      assert roles == roles[..last] + [roles[last]];
      assert Held(roles) == Held(roles[..last]) + {roles[last]};
    }
  }

  /** Order and repetition of roles make no difference. */
  lemma GrantDependsOnHeld(base: Permission, grants: map<string, Permission>, a: seq<string>, b: seq<string>)
    requires Held(a) == Held(b)
    ensures Grant(base, grants, a) == Grant(base, grants, b)
  {
    forall flag
      ensures flag in Grant(base, grants, a) <==> flag in Grant(base, grants, b)
    {
      GrantedFlags(base, grants, a, flag);
      GrantedFlags(base, grants, b, flag);
    }
  }

  // ---------------------------------------------------------------- runs of role changes

  datatype RoleChange = Assign(user: string, role: string) | Withdraw(user: string, role: string)

  function RolesOf(userRoles: map<string, seq<string>>, user: string): seq<string> {
    if user in userRoles then userRoles[user] else []
  }

  function Without(roles: seq<string>, role: string): (r: seq<string>)
    ensures Held(r) == Held(roles) - {role}
    ensures forall other | other != role :: multiset(r)[other] == multiset(roles)[other]
  {
    if roles == [] then []
    else
      var last := |roles| - 1;
      var r := Without(roles[..last], role);
      assert roles == roles[..last] + [roles[last]];
      assert Held(roles) == Held(roles[..last]) + {roles[last]};
      assert Held(r + [roles[last]]) == Held(r) + {roles[last]};
      if roles[last] == role then r else r + [roles[last]]
  }

  function Change(userRoles: map<string, seq<string>>, c: RoleChange): map<string, seq<string>> {
    match c
    case Assign(user, role) => userRoles[user := RolesOf(userRoles, user) + [role]]
    case Withdraw(user, role) => userRoles[user := Without(RolesOf(userRoles, user), role)]
  }

  function After(changes: seq<RoleChange>): map<string, seq<string>> {
    if changes == [] then map[] else Change(After(changes[..|changes| - 1]), changes[|changes| - 1])
  }

  /** The reference: a set of (user, role) pairs. */
  function HeldAfter(changes: seq<RoleChange>): set<(string, string)> {
    if changes == [] then {}
    else
      var held := HeldAfter(changes[..|changes| - 1]);
      match changes[|changes| - 1]
      case Assign(user, role) => held + {(user, role)}
      case Withdraw(user, role) => held - {(user, role)}
  }

  /** The lists hold exactly the pairs of the reference, however often a role was assigned. */
  lemma {:induction false} ListsHoldThePairs(changes: seq<RoleChange>, user: string, role: string)
    ensures role in Held(RolesOf(After(changes), user)) <==> (user, role) in HeldAfter(changes)
  {
    if changes != [] {
      ListsHoldThePairs(changes[..|changes| - 1], user, role);
    }
  }

  /** Two histories that leave a user the same roles leave the same permissions. */
  lemma HistoryDoesNotMatter(base: Permission, grants: map<string, Permission>, a: seq<RoleChange>, b: seq<RoleChange>, user: string)
    requires forall role :: (user, role) in HeldAfter(a) <==> (user, role) in HeldAfter(b)
    ensures Grant(base, grants, RolesOf(After(a), user)) == Grant(base, grants, RolesOf(After(b), user))
  {
    forall role
      ensures role in Held(RolesOf(After(a), user)) <==> role in Held(RolesOf(After(b), user))
    {
      ListsHoldThePairs(a, user, role);
      ListsHoldThePairs(b, user, role);
      assert (user, role) in HeldAfter(a) <==> (user, role) in HeldAfter(b);
    }
    assert Held(RolesOf(After(a), user)) == Held(RolesOf(After(b), user));
    GrantDependsOnHeld(base, grants, RolesOf(After(a), user), RolesOf(After(b), user));
  }

  // ---------------------------------------------------------------- the checker

  datatype Decision = Granted(perm: Permission) | Unauthorized | Denied

  class DefaultPermissionChecker {
    var rules: seq<ChannelRule>
    var defaultRule: ChannelRule
    var userPermissions: map<string, map<Bytes, Permission>>
    var rolePermissions: map<string, Permission>
    var userRoles: map<string, seq<string>>
    var requireAuth: bool

    constructor ()
      ensures rules == [] && userPermissions == map[] && rolePermissions == map[] && !requireAuth
      ensures userRoles == After([])
      ensures defaultRule == ChannelRule([], {1, 2, 3}, false, false)
    {
      rules, userPermissions, rolePermissions, userRoles, requireAuth := [], map[], map[], map[], false;
      defaultRule := ChannelRule([], PERM_SUBSCRIBE + PERM_PUBLISH + PERM_PRESENCE, false, false);
    }

    ghost function Rule(channel: Bytes): ChannelRule
      reads this
    {
      FirstRule(rules, defaultRule, channel)
    }

    predicate Overridden(userID: string, channel: Bytes)
      reads this
    {
      userID in userPermissions && channel in userPermissions[userID]
    }

    /** A user's own entry for the channel replaces the rule's permissions and the roles'. */
    ghost function Effective(userID: string, channel: Bytes): Permission
      reads this
    {
      if Overridden(userID, channel) then userPermissions[userID][channel]
      else Grant(Rule(channel).defaultPermissions, rolePermissions, RolesOf(userRoles, userID))
    }

    method AddRule(rule: ChannelRule)
      modifies this`rules
      ensures rules == old(rules) + [rule]
      ensures forall channel ::
        Rule(channel) == if Unruled(old(rules), channel) && Matches(rule.pattern, channel) then rule else old(Rule(channel))
    {
      forall channel
        ensures FirstRule(rules + [rule], defaultRule, channel) ==
                if Unruled(rules, channel) && Matches(rule.pattern, channel) then rule else Rule(channel)
      {
        AppendedRule(rules, defaultRule, rule, channel);
      }
      rules := rules + [rule];
    }

    method SetUserPermission(userID: string, channel: Bytes, perm: Permission)
      modifies this`userPermissions
      ensures Effective(userID, channel) == perm
      ensures forall u, c | u != userID || c != channel :: Effective(u, c) == old(Effective(u, c))
    {
      if userID !in userPermissions {
        userPermissions := userPermissions[userID := map[]];
      }
      userPermissions := userPermissions[userID := userPermissions[userID][channel := perm]];
    }

    method RemoveUserPermission(userID: string, channel: Bytes)
      modifies this`userPermissions
      ensures !Overridden(userID, channel)
      ensures forall u, c | u != userID || c != channel :: Effective(u, c) == old(Effective(u, c))
    {
      if userID in userPermissions {
        userPermissions := userPermissions[userID := userPermissions[userID] - {channel}];
      }
    }

    method AssignRole(userID: string, role: string)
      modifies this`userRoles
      ensures userRoles == Change(old(userRoles), Assign(userID, role))
      ensures userRoles == old(userRoles)[userID := (if userID in old(userRoles) then old(userRoles)[userID] else []) + [role]]
    {
      var roles := if userID in userRoles then userRoles[userID] else [];
      userRoles := userRoles[userID := roles + [role]];
    }

    method RemoveRole(userID: string, role: string)
      modifies this`userRoles
      ensures userRoles == Change(old(userRoles), Withdraw(userID, role))
      ensures userID in userRoles && userRoles == old(userRoles)[userID := userRoles[userID]] && role !in userRoles[userID]
      ensures forall other | other != role ::
        multiset(userRoles[userID])[other] == if userID in old(userRoles) then multiset(old(userRoles)[userID])[other] else 0
    {
      var roles := if userID in userRoles then userRoles[userID] else [];
      var newRoles := [];
      for i := 0 to |roles|
        invariant newRoles == Without(roles[..i], role)
      {
        assert roles[..i + 1][..i] == roles[..i];
        if roles[i] != role {
          newRoles := newRoles + [roles[i]];
        }
      }
      assert roles[..|roles|] == roles;
      userRoles := userRoles[userID := newRoles];
      assert role !in Held(newRoles);
    }

    method FindRule(channel: Bytes) returns (rule: ChannelRule)
      ensures rule == Rule(channel)
      ensures (rule == defaultRule && forall k | 0 <= k < |rules| :: !Matches(rules[k].pattern, channel)) ||
              exists i | 0 <= i < |rules| ::
                rule == rules[i] && Matches(rules[i].pattern, channel) && forall k | 0 <= k < i :: !Matches(rules[k].pattern, channel)
    {
      for i := 0 to |rules|
        invariant forall k | 0 <= k < i :: !Matches(rules[k].pattern, channel)
      {
        var matched := MatchPattern(rules[i].pattern, channel);
        if matched {
          FirstRuleSkips(rules, defaultRule, channel, i);
          return rules[i];
        }
      }
      FirstRuleSkips(rules, defaultRule, channel, |rules|);
      return defaultRule;
    }

    /** The role loop shared by both entry points. */
    method ApplyRoles(base: Permission, userID: string) returns (perm: Permission)
      ensures perm == Grant(base, rolePermissions, RolesOf(userRoles, userID))
    {
      perm := base;
      var roles := RolesOf(userRoles, userID);
      for i := 0 to |roles|
        invariant perm == Grant(base, rolePermissions, roles[..i])
      {
        assert roles[..i + 1][..i] == roles[..i];
        if roles[i] in rolePermissions {
          perm := Add(perm, rolePermissions[roles[i]]);
        }
      }
      assert roles[..|roles|] == roles;
    }

    method CheckSubscribe(userID: string, channel: Bytes) returns (r: Decision)
      ensures r == Unauthorized <==> Rule(channel).requireAuth && userID == "" && !Rule(channel).allowAnonymous
      ensures r == Denied <==> r != Unauthorized && 1 !in Effective(userID, channel)
      ensures r.Granted? ==> r.perm == Effective(userID, channel) && 1 in r.perm
    {
      var rule := FindRule(channel);
      if rule.requireAuth && userID == "" && !rule.allowAnonymous {
        return Unauthorized;
      }
      var perm := ApplyRoles(rule.defaultPermissions, userID);
      if userID in userPermissions && channel in userPermissions[userID] {
        perm := userPermissions[userID][channel];
      }
      HasFlag(perm, 1);
      if !Has(perm, PERM_SUBSCRIBE) {
        return Denied;
      }
      return Granted(perm);
    }

    /** The user's own entry for the channel, or else each flag that the rule or one of the user's roles grants. */
    method GetUserPermissions(userID: string, channel: Bytes) returns (perm: Permission)
      ensures perm == Effective(userID, channel)
      ensures userID in userPermissions && channel in userPermissions[userID] ==> perm == userPermissions[userID][channel]
      ensures !(userID in userPermissions && channel in userPermissions[userID]) ==>
        forall flag :: flag in perm <==>
          || flag in Rule(channel).defaultPermissions
          || exists role | userID in userRoles && role in userRoles[userID] && role in rolePermissions :: flag in rolePermissions[role]
    {
      var rule := FindRule(channel);
      perm := ApplyRoles(rule.defaultPermissions, userID);
      forall flag
        ensures flag in perm <==>
          || flag in rule.defaultPermissions
          || exists role | userID in userRoles && role in userRoles[userID] && role in rolePermissions :: flag in rolePermissions[role]
      {
        GrantedFlags(rule.defaultPermissions, rolePermissions, RolesOf(userRoles, userID), flag);
      }
      if userID in userPermissions && channel in userPermissions[userID] {
        perm := userPermissions[userID][channel];
      }
    }

    method CheckPublish(userID: string, channel: Bytes) returns (ok: bool)
      ensures ok <==> 2 in Effective(userID, channel)
    {
      var perm := GetUserPermissions(userID, channel);
      HasFlag(perm, 2);
      ok := Has(perm, PERM_PUBLISH);
    }
  }

  /** A rule added last decides only the channels no earlier rule matches. */
  lemma {:induction false} AppendedRule(rules: seq<ChannelRule>, default: ChannelRule, rule: ChannelRule, channel: Bytes)
    ensures FirstRule(rules + [rule], default, channel) ==
            if Unruled(rules, channel) && Matches(rule.pattern, channel) then rule else FirstRule(rules, default, channel)
  {
    if rules == [] {
      assert rules + [rule] == [rule];
    } else {
      assert (rules + [rule])[1..] == rules[1..] + [rule];
      AppendedRule(rules[1..], default, rule, channel);
    }
  }
}
