/**
 The managed ACL rule and its validation (internal/acl/acl.go).
 */
module Rules {
  import opened Strings

  /* The native Mosquitto section a rule belongs to. `Unset` is the empty text of a rule
     stored before selectors existed; `Other` is any text the validation rejects. */
  datatype Selector = UnsetSelector | User | Anonymous | Pattern | OtherSelector(text: string)

  /* The file a rule is rendered into. */
  datatype Scope = UnsetScope | Global | Listener | OtherScope(text: string)

  datatype Permission = Read | Write | ReadWrite | Deny | Unsupported(text: string)

  datatype Rule = Rule(
    id: string,
    selector: Selector,
    scope: Scope,
    listenerId: string,
    principal: string,
    filter: string,
    permission: Permission,
    description: string)
  {
    function EffectiveSelector(): Selector {
      if selector == UnsetSelector then User else selector
    }

    function EffectiveScope(): Scope {
      if scope == UnsetScope then Global else scope
    }

    predicate IsListenerScoped() {
      EffectiveScope() == Listener
    }

    predicate IsUserScoped() {
      EffectiveSelector() == User
    }

    function Normalize(): Rule {
      this.(selector := EffectiveSelector(),
            scope := EffectiveScope(),
            listenerId := if EffectiveScope() == Listener then listenerId else "")
    }

    /* What a rule means to the broker: everything that takes part in an access decision. */
    function Meaning(): Core {
      Core(EffectiveSelector(), principal, permission, filter)
    }
  }

  datatype Core = Core(selector: Selector, principal: string, permission: Permission, filter: string)

  function CoresOf(rules: seq<Rule>): set<Core> {
    set r | r in rules :: r.Meaning()
  }

  function PermissionText(p: Permission): string {
    match p
    case Read => "read"
    case Write => "write"
    case ReadWrite => "readwrite"
    case Deny => "deny"
    case Unsupported(text) => text
  }

  // ---------------------------------------------------------------- validation

  /* MQTT wildcard rules: `#` and `+` occupy a whole level, and `#` is the last one. */
  predicate ValidTopicFilter(filter: string) {
    && filter != ""
    && !HasControl(filter)
    && var levels := Split(filter, '/');
       forall i :: 0 <= i < |levels| ==>
         && ('#' in levels[i] ==> levels[i] == "#" && i == |levels| - 1)
         && ('+' in levels[i] ==> levels[i] == "+")
  }

  /* A placeholder of a pattern occupies a whole level. */
  predicate ValidPlaceholders(filter: string) {
    var levels := Split(filter, '/');
    forall i :: 0 <= i < |levels| ==>
      (Contains(levels[i], "%u") || Contains(levels[i], "%c")) ==> levels[i] in ["%u", "%c"]
  }

  const MAX_LISTENER_ID := 64

  predicate ListenerIdCharacter(c: char) {
    || 'a' <= c <= 'z' || 'A' <= c <= 'Z' || '0' <= c <= '9'
    || c == '-' || c == '_' || c == '.'
  }

  /* The checks on control characters and path separators are subsumed by the alphabet. */
  predicate ValidListenerId(id: string) {
    && 0 < |id| <= MAX_LISTENER_ID
    && id != "." && id != ".."
    && forall i :: 0 <= i < |id| ==> ListenerIdCharacter(id[i])
  }

  predicate ValidPrincipal(selector: Selector, principal: string) {
    match selector
    case User => TrimSpace(principal) != "" && !HasControl(principal)
    case Anonymous => principal == ""
    case Pattern => principal == ""
    case _ => false
  }

  /* `ValidateRule`: the managed broker understands the deny permission. */
  predicate ValidRule(rule: Rule) {
    && ValidPrincipal(rule.EffectiveSelector(), rule.principal)
    && (match rule.EffectiveScope()
        case Global => rule.listenerId == ""
        case Listener => ValidListenerId(rule.listenerId)
        case _ => false)
    && TrimSpace(rule.filter) != ""
    && ValidTopicFilter(rule.filter)
    && (rule.EffectiveSelector() == Pattern ==> ValidPlaceholders(rule.filter))
    && !rule.permission.Unsupported?
  }

  /* A rule whose rendered line reads back as itself: the principal is one word and the
     filter is its own words joined by single blanks. */
  predicate WellFormed(rule: Rule) {
    && ValidRule(rule)
    && !HasSpace(rule.principal)
    && rule.filter == Join(Fields(rule.filter), " ")
  }

  /* The grant MCM always emits for its own account. */
  const HEALTHCHECK_TOPIC := "mcm/healthcheck"

  // ---------------------------------------------------------------- rendering one rule

  function TopicLine(rule: Rule): string {
    "topic " + PermissionText(rule.permission) + " " + rule.filter
  }

  function PatternLine(rule: Rule): string {
    "pattern " + PermissionText(rule.permission) + " " + rule.filter
  }
}
