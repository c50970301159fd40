/** Routing rules as trees; what they match beyond the listed fields is kept in `rest`. */
module RouteRules {

  datatype ActionKind = NoAction | Route | Sniff | HijackDns | Resolve | OtherAction(name: string)

  datatype Action = Action(kind: ActionKind, outbound: string, server: string, strategy: int)

  /** A rule without a type counts as a default one in some places and not in others. */
  datatype Kind = Untyped | Default | Logical | OtherKind(name: string)

  datatype Mode = And | Or

  datatype Matchers = Matchers(inbound: seq<string>, protocol: seq<string>, ruleSet: seq<string>, invert: bool,
    rest: int)

  datatype DefaultRule = DefaultRule(criteria: Matchers, action: Action)

  datatype LogicalRule = LogicalRule(mode: Mode, rules: seq<Rule>, invert: bool, action: Action)

  /** Only the part for the rule's kind counts. */
  datatype Rule = Rule(kind: Kind, def: DefaultRule, logical: LogicalRule)
}
