/** Rule evaluation and conflict detection (standards-evaluation.service.ts): a pairwise
    syntactic check measured against the evaluator's own meaning of the rules. */
module Standards {
  import opened Options

  datatype RuleType = Must | Should | May | MustNot

  /** Ports are the decimal texts that the evaluator compares. */
  datatype Rule = Rule(
    kind: RuleType,
    minVcpu: Option<int>,
    minRamMb: Option<int>,
    backupRequired: Option<bool>,
    allowedPorts: seq<string>,
    allowedNetworks: seq<string>,
    namingConvention: Option<string>)

  datatype Standard = Standard(id: string, rules: seq<Rule>)

  datatype Target = Target(
    vcpus: Option<int>,
    ramMb: Option<int>,
    backupEnabled: Option<bool>,
    ports: seq<string>,
    networks: seq<string>,
    name: Option<string>)

  /** The runtime's lower-casing, and its regular expressions: no answer for an invalid pattern. */
  datatype Runtime = Runtime(lower: string -> string, test: (string, string) -> Option<bool>)

  datatype Verdict = Pass | Fail | Unknown | NotApplicable

  datatype Quantity = Vcpus | RamMb

  predicate Prohibits(rule: Rule) { rule.kind.MustNot? }

  function Bound(rule: Rule, q: Quantity): Option<int> {
    if q.Vcpus? then rule.minVcpu else rule.minRamMb
  }

  function Amount(target: Target, q: Quantity): Option<int> {
    if q.Vcpus? then target.vcpus else target.ramMb
  }

  predicate NamesPattern(rule: Rule) {
    rule.namingConvention.Some? && rule.namingConvention.value != ""
  }

  // ------------------------------------------------------------- one constraint

  function Decided(holds: bool, prohibits: bool): Verdict {
    if holds != prohibits then Pass else Fail
  }

  function Minimum(expected: int, actual: Option<int>, prohibits: bool): Verdict {
    if actual.None? then Unknown else Decided(actual.value >= expected, prohibits)
  }

  function BooleanConstraint(expected: bool, actual: Option<bool>, prohibits: bool): Verdict {
    if actual.None? then Unknown else Decided(actual.value == expected, prohibits)
  }

  predicate Listed(rt: Runtime, value: string, expected: seq<string>) {
    exists e | e in expected :: rt.lower(e) == rt.lower(value)
  }

  function ListConstraint(rt: Runtime, expected: seq<string>, actual: seq<string>, prohibits: bool): Verdict {
    var passes := forall v | v in actual :: Listed(rt, v, expected) != prohibits;
    if passes then Pass else Fail
  }

  function NamingConstraint(rt: Runtime, pattern: string, actual: Option<string>, prohibits: bool): Verdict {
    if actual.None? || actual.value == "" || rt.test(pattern, actual.value).None? then Unknown
    else Decided(rt.test(pattern, actual.value).value, prohibits)
  }

  // ------------------------------------------------------------------- one rule

  function QuantityPart(rule: Rule, target: Target, q: Quantity): seq<Verdict> {
    if Bound(rule, q).Some? then [Minimum(Bound(rule, q).value, Amount(target, q), Prohibits(rule))] else []
  }

  function BackupPart(rule: Rule, target: Target): seq<Verdict> {
    if rule.backupRequired.Some? then [BooleanConstraint(rule.backupRequired.value, target.backupEnabled, Prohibits(rule))] else []
  }

  function ListPart(rt: Runtime, expected: seq<string>, actual: seq<string>, prohibits: bool): seq<Verdict> {
    if expected != [] then [ListConstraint(rt, expected, actual, prohibits)] else []
  }

  function NamePart(rt: Runtime, rule: Rule, target: Target): seq<Verdict> {
    if NamesPattern(rule) then [NamingConstraint(rt, rule.namingConvention.value, target.name, Prohibits(rule))] else []
  }

  function Constraints(rt: Runtime, rule: Rule, target: Target): seq<Verdict> {
    QuantityPart(rule, target, Vcpus) + QuantityPart(rule, target, RamMb) + BackupPart(rule, target)
    + ListPart(rt, rule.allowedPorts, target.ports, Prohibits(rule))
    + ListPart(rt, rule.allowedNetworks, target.networks, Prohibits(rule))
    + NamePart(rt, rule, target)
  }

  predicate Applies(rule: Rule, includeShould: bool) {
    rule.kind.Should? ==> includeShould
  }

  function Summary(constraints: seq<Verdict>): Verdict {
    if constraints == [] then Unknown
    else if Fail in constraints then Fail
    else if Unknown in constraints then Unknown
    else Pass
  }

  function RuleVerdict(rt: Runtime, rule: Rule, target: Target, includeShould: bool): Verdict {
    if !Applies(rule, includeShould) then NotApplicable else Summary(Constraints(rt, rule, target))
  }

  /** The constraints that `evaluateRule` pushes, one field after the other. */
  method CollectConstraints(rt: Runtime, rule: Rule, target: Target) returns (constraints: seq<Verdict>)
    ensures constraints == Constraints(rt, rule, target)
  {
    constraints := [];
    if rule.minVcpu.Some? { constraints := constraints + [Minimum(rule.minVcpu.value, target.vcpus, rule.kind == MustNot)]; }
    ghost var sofar := QuantityPart(rule, target, Vcpus);
    assert constraints == sofar;
    if rule.minRamMb.Some? { constraints := constraints + [Minimum(rule.minRamMb.value, target.ramMb, rule.kind == MustNot)]; }
    sofar := sofar + QuantityPart(rule, target, RamMb);
    assert constraints == sofar;
    if rule.backupRequired.Some? {
      constraints := constraints + [BooleanConstraint(rule.backupRequired.value, target.backupEnabled, rule.kind == MustNot)];
    }
    sofar := sofar + BackupPart(rule, target);
    assert constraints == sofar;
    constraints := CollectLists(rt, rule, target, constraints);
    if NamesPattern(rule) {
      constraints := constraints + [NamingConstraint(rt, rule.namingConvention.value, target.name, rule.kind == MustNot)];
    }
  }

  method CollectLists(rt: Runtime, rule: Rule, target: Target, before: seq<Verdict>) returns (constraints: seq<Verdict>)
    ensures constraints == before + ListPart(rt, rule.allowedPorts, target.ports, Prohibits(rule))
                           + ListPart(rt, rule.allowedNetworks, target.networks, Prohibits(rule))
  {
    constraints := before;
    if |rule.allowedPorts| > 0 { constraints := constraints + [ListConstraint(rt, rule.allowedPorts, target.ports, rule.kind == MustNot)]; }
    assert constraints == before + ListPart(rt, rule.allowedPorts, target.ports, Prohibits(rule));
    if |rule.allowedNetworks| > 0 {
      constraints := constraints + [ListConstraint(rt, rule.allowedNetworks, target.networks, rule.kind == MustNot)];
    }
  }

  method EvaluateRule(rt: Runtime, rule: Rule, target: Target, includeShould: bool) returns (result: Verdict)
    ensures result == RuleVerdict(rt, rule, target, includeShould)
  {
    if rule.kind == Should && !includeShould { return NotApplicable; }
    var constraints := CollectConstraints(rt, rule, target);
    if |constraints| == 0 { return Unknown; }
    if Fail in constraints { return Fail; }
    if Unknown in constraints { return Unknown; }
    return Pass;
  }

  /** The amount is on the right side of the bound: below it for a prohibition. */
  predicate Respects(amount: int, bound: int, prohibits: bool) {
    (amount >= bound) != prohibits
  }

  predicate Satisfies(amount: Option<int>, rule: Rule, q: Quantity) {
    Bound(rule, q).Some? ==> amount.Some? && Respects(amount.value, Bound(rule, q).value, Prohibits(rule))
  }

  /** Every value is on the list, or none is when the list is forbidden. */
  predicate AllRespect(rt: Runtime, actual: seq<string>, expected: seq<string>, prohibits: bool) {
    forall i | 0 <= i < |actual| :: Listed(rt, actual[i], expected) == !prohibits
  }

  lemma ListMeans(rt: Runtime, expected: seq<string>, actual: seq<string>, prohibits: bool)
    ensures ListConstraint(rt, expected, actual, prohibits) == if AllRespect(rt, actual, expected, prohibits) then Pass else Fail
  {
    forall i | 0 <= i < |actual| ensures actual[i] in actual { }
  }

  predicate BackupSatisfied(rule: Rule, target: Target) {
    rule.backupRequired.Some? ==>
      target.backupEnabled.Some? && (target.backupEnabled.value == rule.backupRequired.value) != Prohibits(rule)
  }

  /** The name is given, the pattern is valid, and the name matches it unless that is forbidden. */
  predicate NameSatisfied(rt: Runtime, rule: Rule, target: Target) {
    NamesPattern(rule) ==>
      target.name.Some? && target.name.value != ""
      && rt.test(rule.namingConvention.value, target.name.value) == Some(!Prohibits(rule))
  }

  predicate StatesSomething(rule: Rule) {
    rule.minVcpu.Some? || rule.minRamMb.Some? || rule.backupRequired.Some?
    || rule.allowedPorts != [] || rule.allowedNetworks != [] || NamesPattern(rule)
  }

  /** Every part that the rule states has a known value that satisfies it. */
  ghost predicate AllSatisfied(rt: Runtime, rule: Rule, target: Target) {
    && (forall q: Quantity :: Satisfies(Amount(target, q), rule, q))
    && BackupSatisfied(rule, target)
    && (rule.allowedPorts != [] ==> AllRespect(rt, target.ports, rule.allowedPorts, Prohibits(rule)))
    && (rule.allowedNetworks != [] ==> AllRespect(rt, target.networks, rule.allowedNetworks, Prohibits(rule)))
    && NameSatisfied(rt, rule, target)
  }

  /** Some part that the rule states has a known value that violates it. */
  ghost predicate SomeViolated(rt: Runtime, rule: Rule, target: Target) {
    || (exists q: Quantity :: Amount(target, q).Some? && !Satisfies(Amount(target, q), rule, q))
    || (target.backupEnabled.Some? && !BackupSatisfied(rule, target))
    || (rule.allowedPorts != [] && !AllRespect(rt, target.ports, rule.allowedPorts, Prohibits(rule)))
    || (rule.allowedNetworks != [] && !AllRespect(rt, target.networks, rule.allowedNetworks, Prohibits(rule)))
    || (NamesPattern(rule) && target.name.Some? && target.name.value != ""
        && rt.test(rule.namingConvention.value, target.name.value) == Some(Prohibits(rule)))
  }

  lemma QuantityPartMeans(rule: Rule, target: Target, q: Quantity)
    ensures Fail in QuantityPart(rule, target, q) <==> Amount(target, q).Some? && !Satisfies(Amount(target, q), rule, q)
    ensures AllPass(QuantityPart(rule, target, q)) <==> Satisfies(Amount(target, q), rule, q)
  {
    if Bound(rule, q).Some? { assert QuantityPart(rule, target, q)[0] in QuantityPart(rule, target, q); }
  }

  lemma BackupPartMeans(rule: Rule, target: Target)
    ensures Fail in BackupPart(rule, target) <==> target.backupEnabled.Some? && !BackupSatisfied(rule, target)
    ensures AllPass(BackupPart(rule, target)) <==> BackupSatisfied(rule, target)
  {
    if rule.backupRequired.Some? { assert BackupPart(rule, target)[0] in BackupPart(rule, target); }
  }

  lemma ListPartMeans(rt: Runtime, expected: seq<string>, actual: seq<string>, prohibits: bool)
    ensures Fail in ListPart(rt, expected, actual, prohibits) <==> expected != [] && !AllRespect(rt, actual, expected, prohibits)
    ensures AllPass(ListPart(rt, expected, actual, prohibits)) <==>
            (expected != [] ==> AllRespect(rt, actual, expected, prohibits))
  {
    hide AllRespect, ListConstraint;
    ListMeans(rt, expected, actual, prohibits);
    if expected != [] { assert ListPart(rt, expected, actual, prohibits)[0] in ListPart(rt, expected, actual, prohibits); }
  }

  lemma NamePartMeans(rt: Runtime, rule: Rule, target: Target)
    ensures Fail in NamePart(rt, rule, target) <==>
            NamesPattern(rule) && target.name.Some? && target.name.value != ""
            && rt.test(rule.namingConvention.value, target.name.value) == Some(Prohibits(rule))
    ensures AllPass(NamePart(rt, rule, target)) <==> NameSatisfied(rt, rule, target)
  {
    if NamesPattern(rule) { assert NamePart(rt, rule, target)[0] in NamePart(rt, rule, target); }
  }

  predicate AllPass(constraints: seq<Verdict>) {
    forall v | v in constraints :: v == Pass
  }

  lemma Concatenated(a: seq<Verdict>, b: seq<Verdict>)
    ensures AllPass(a + b) <==> AllPass(a) && AllPass(b)
    ensures Fail in a + b <==> Fail in a || Fail in b
    ensures NotApplicable in a + b <==> NotApplicable in a || NotApplicable in b
  {
    forall v ensures v in a + b <==> v in a || v in b { }
  }

  lemma ConstraintsConcatenated(rt: Runtime, rule: Rule, target: Target)
    ensures var parts := [QuantityPart(rule, target, Vcpus), QuantityPart(rule, target, RamMb), BackupPart(rule, target),
                          ListPart(rt, rule.allowedPorts, target.ports, Prohibits(rule)),
                          ListPart(rt, rule.allowedNetworks, target.networks, Prohibits(rule)), NamePart(rt, rule, target)];
            && (AllPass(Constraints(rt, rule, target)) <==>
                  AllPass(parts[0]) && AllPass(parts[1]) && AllPass(parts[2]) && AllPass(parts[3]) && AllPass(parts[4]) && AllPass(parts[5]))
            && (Fail in Constraints(rt, rule, target) <==>
                  Fail in parts[0] || Fail in parts[1] || Fail in parts[2] || Fail in parts[3] || Fail in parts[4] || Fail in parts[5])
            && (NotApplicable in Constraints(rt, rule, target) <==>
                  || NotApplicable in parts[0] || NotApplicable in parts[1] || NotApplicable in parts[2]
                  || NotApplicable in parts[3] || NotApplicable in parts[4] || NotApplicable in parts[5])
  {
    hide QuantityPart, BackupPart, ListPart, NamePart, AllPass;
    var a, b, c := QuantityPart(rule, target, Vcpus), QuantityPart(rule, target, RamMb), BackupPart(rule, target);
    var d := ListPart(rt, rule.allowedPorts, target.ports, Prohibits(rule));
    var e := ListPart(rt, rule.allowedNetworks, target.networks, Prohibits(rule));
    Concatenated(a, b);
    Concatenated(a + b, c);
    Concatenated(a + b + c, d);
    Concatenated(a + b + c + d, e);
    Concatenated(a + b + c + d + e, NamePart(rt, rule, target));
  }

  lemma NothingStated(rt: Runtime, rule: Rule, target: Target)
    ensures Constraints(rt, rule, target) == [] <==> !StatesSomething(rule)
  {
    hide Minimum, BooleanConstraint, ListConstraint, NamingConstraint;
  }

  lemma SummaryMeans(constraints: seq<Verdict>)
    ensures Summary(constraints) == Fail <==> Fail in constraints
    ensures Summary(constraints) == Pass && NotApplicable !in constraints ==> constraints != [] && AllPass(constraints)
    ensures constraints != [] && AllPass(constraints) ==> Summary(constraints) == Pass
    ensures Summary(constraints) != NotApplicable
  {
    if constraints != [] { assert constraints[0] in constraints; }
  }

  lemma AlwaysApplicable(rt: Runtime, rule: Rule, target: Target)
    ensures NotApplicable !in Constraints(rt, rule, target)
  {
    ConstraintsConcatenated(rt, rule, target);
    hide Constraints;
  }

  lemma PartsMean(rt: Runtime, rule: Rule, target: Target)
    ensures AllPass(Constraints(rt, rule, target)) <==> AllSatisfied(rt, rule, target)
    ensures Fail in Constraints(rt, rule, target) <==> SomeViolated(rt, rule, target)
  {
    ConstraintsConcatenated(rt, rule, target);
    hide Constraints, Satisfies, AllRespect, BackupSatisfied, NameSatisfied, QuantityPart, BackupPart, ListPart, NamePart;
    QuantityPartMeans(rule, target, Vcpus);
    QuantityPartMeans(rule, target, RamMb);
    BackupPartMeans(rule, target);
    ListPartMeans(rt, rule.allowedPorts, target.ports, Prohibits(rule));
    ListPartMeans(rt, rule.allowedNetworks, target.networks, Prohibits(rule));
    NamePartMeans(rt, rule, target);
  }

  /** A rule passes exactly when it applies, states something, and every part that it states has
      a known value that satisfies it; it fails exactly when it applies and a known value does not. */
  lemma VerdictMeans(rt: Runtime, rule: Rule, target: Target, includeShould: bool)
    ensures RuleVerdict(rt, rule, target, includeShould) == Pass <==>
            Applies(rule, includeShould) && StatesSomething(rule) && AllSatisfied(rt, rule, target)
    ensures RuleVerdict(rt, rule, target, includeShould) == Fail <==>
            Applies(rule, includeShould) && SomeViolated(rt, rule, target)
  {
    hide Constraints, Summary, StatesSomething, AllPass, AllSatisfied, SomeViolated;
    SummaryMeans(Constraints(rt, rule, target));
    AlwaysApplicable(rt, rule, target);
    NothingStated(rt, rule, target);
    PartsMean(rt, rule, target);
  }

  /** The rule on its fields: every part that is stated has a value on its right side, which for a
      prohibition is the other one. */
  ghost predicate Meets(rt: Runtime, rule: Rule, target: Target) {
    var wanted := rule.kind != MustNot;
    && (rule.minVcpu.Some? ==> target.vcpus.Some? && (target.vcpus.value >= rule.minVcpu.value) == wanted)
    && (rule.minRamMb.Some? ==> target.ramMb.Some? && (target.ramMb.value >= rule.minRamMb.value) == wanted)
    && (rule.backupRequired.Some? ==> target.backupEnabled.Some? && (target.backupEnabled == rule.backupRequired) == wanted)
    && (rule.allowedPorts != [] ==>
          forall v | v in target.ports :: (exists e | e in rule.allowedPorts :: rt.lower(e) == rt.lower(v)) == wanted)
    && (rule.allowedNetworks != [] ==>
          forall v | v in target.networks :: (exists e | e in rule.allowedNetworks :: rt.lower(e) == rt.lower(v)) == wanted)
    && (rule.namingConvention.Some? && rule.namingConvention.value != "" ==>
          && target.name.Some? && target.name.value != ""
          && rt.test(rule.namingConvention.value, target.name.value) == Some(wanted))
  }

  /** Some part that is stated has a known value on its wrong side. */
  ghost predicate Breaks(rt: Runtime, rule: Rule, target: Target) {
    var wanted := rule.kind != MustNot;
    || (rule.minVcpu.Some? && target.vcpus.Some? && (target.vcpus.value >= rule.minVcpu.value) != wanted)
    || (rule.minRamMb.Some? && target.ramMb.Some? && (target.ramMb.value >= rule.minRamMb.value) != wanted)
    || (rule.backupRequired.Some? && target.backupEnabled.Some? && (target.backupEnabled == rule.backupRequired) != wanted)
    || (rule.allowedPorts != []
        && exists v | v in target.ports :: (exists e | e in rule.allowedPorts :: rt.lower(e) == rt.lower(v)) != wanted)
    || (rule.allowedNetworks != []
        && exists v | v in target.networks :: (exists e | e in rule.allowedNetworks :: rt.lower(e) == rt.lower(v)) != wanted)
    || (rule.namingConvention.Some? && rule.namingConvention.value != "" && target.name.Some? && target.name.value != ""
        && rt.test(rule.namingConvention.value, target.name.value) == Some(!wanted))
  }

  lemma ListsOnFields(rt: Runtime, actual: seq<string>, expected: seq<string>, prohibits: bool)
    ensures AllRespect(rt, actual, expected, prohibits) <==>
            forall v | v in actual :: (exists e | e in expected :: rt.lower(e) == rt.lower(v)) == !prohibits
  {
    forall v ensures Listed(rt, v, expected) <==> (exists e | e in expected :: rt.lower(e) == rt.lower(v)) { }
    hide Listed;
    if AllRespect(rt, actual, expected, prohibits) {
      forall v | v in actual ensures Listed(rt, v, expected) == !prohibits {
        var i :| 0 <= i < |actual| && actual[i] == v;
      }
    } else {
      var i :| 0 <= i < |actual| && Listed(rt, actual[i], expected) == prohibits;
      assert actual[i] in actual;
    }
  }

  lemma QuantitiesOnFields(rule: Rule, target: Target)
    ensures Satisfies(Amount(target, Vcpus), rule, Vcpus) <==>
            (rule.minVcpu.Some? ==> target.vcpus.Some? && (target.vcpus.value >= rule.minVcpu.value) == (rule.kind != MustNot))
    ensures Satisfies(Amount(target, RamMb), rule, RamMb) <==>
            (rule.minRamMb.Some? ==> target.ramMb.Some? && (target.ramMb.value >= rule.minRamMb.value) == (rule.kind != MustNot))
    ensures Amount(target, Vcpus) == target.vcpus && Amount(target, RamMb) == target.ramMb
  {
  }

  lemma PartsOnFields(rt: Runtime, rule: Rule, target: Target)
    ensures AllSatisfied(rt, rule, target) <==> Meets(rt, rule, target)
    ensures SomeViolated(rt, rule, target) <==> Breaks(rt, rule, target)
  {
    QuantitiesOnFields(rule, target);
    ListsOnFields(rt, target.ports, rule.allowedPorts, Prohibits(rule));
    ListsOnFields(rt, target.networks, rule.allowedNetworks, Prohibits(rule));
    assert BackupSatisfied(rule, target) <==>
           (rule.backupRequired.Some? ==> target.backupEnabled.Some? && (target.backupEnabled == rule.backupRequired) == (rule.kind != MustNot));
    hide AllRespect, Satisfies, BackupSatisfied, Amount;
  }

  /** The verdict on the fields of rule and target. */
  lemma VerdictOnFields(rt: Runtime, rule: Rule, target: Target, includeShould: bool)
    ensures var verdict := RuleVerdict(rt, rule, target, includeShould);
            && (verdict == NotApplicable <==> rule.kind == Should && !includeShould)
            && (verdict == Fail <==> (rule.kind == Should ==> includeShould) && Breaks(rt, rule, target))
            && (verdict == Pass <==>
                  && (rule.kind == Should ==> includeShould) && Meets(rt, rule, target)
                  && (|| rule.minVcpu.Some? || rule.minRamMb.Some? || rule.backupRequired.Some?
                      || rule.allowedPorts != [] || rule.allowedNetworks != []
                      || (rule.namingConvention.Some? && rule.namingConvention.value != "")))
  {
    assert StatesSomething(rule) <==>
           || rule.minVcpu.Some? || rule.minRamMb.Some? || rule.backupRequired.Some?
           || rule.allowedPorts != [] || rule.allowedNetworks != []
           || (rule.namingConvention.Some? && rule.namingConvention.value != "");
    assert Applies(rule, includeShould) <==> (rule.kind == Should ==> includeShould);
    SummaryMeans(Constraints(rt, rule, target));
    assert RuleVerdict(rt, rule, target, includeShould) == NotApplicable <==> !Applies(rule, includeShould);
    hide RuleVerdict, Constraints, Meets, Breaks, AllSatisfied, SomeViolated, StatesSomething, Applies;
    VerdictMeans(rt, rule, target, includeShould);
    PartsOnFields(rt, rule, target);
  }

  // ------------------------------------------------------------------ conflicts

  datatype Reason = BackupsClash | QuantitiesClash(q: Quantity, minimum: int, forbiddenFrom: int) | NamesClash(pattern: string)

  function QuantityConflict(left: Rule, right: Rule, q: Quantity): Option<Reason> {
    var l, r := Bound(left, q), Bound(right, q);
    if l.None? || r.None? || Prohibits(left) == Prohibits(right) then None
    else
      var minimum := if Prohibits(left) then r.value else l.value;
      var forbiddenFrom := if Prohibits(left) then l.value else r.value;
      if minimum >= forbiddenFrom then Some(QuantitiesClash(q, minimum, forbiddenFrom)) else None
  }

  function RuleConflict(left: Rule, right: Rule): Option<Reason> {
    if left.backupRequired.Some? && right.backupRequired.Some?
       && (left.backupRequired.value != Prohibits(left)) != (right.backupRequired.value != Prohibits(right))
    then Some(BackupsClash)
    else if QuantityConflict(left, right, Vcpus).Some? then QuantityConflict(left, right, Vcpus)
    else if QuantityConflict(left, right, RamMb).Some? then QuantityConflict(left, right, RamMb)
    else if NamesPattern(left) && left.namingConvention == right.namingConvention && Prohibits(left) != Prohibits(right)
    then Some(NamesClash(left.namingConvention.value))
    else None
  }

  /** The two demand opposite backup states. */
  predicate BackupsOpposed(left: Rule, right: Rule) {
    && left.backupRequired.Some? && right.backupRequired.Some?
    && (left.backupRequired == right.backupRequired <==> (left.kind == MustNot) != (right.kind == MustNot))
  }

  /** One demands `minimum` of an amount, the other forbids it from `forbiddenFrom` on. */
  predicate AmountsOpposed(left: Rule, right: Rule, l: Option<int>, r: Option<int>, minimum: int, forbiddenFrom: int) {
    && minimum >= forbiddenFrom
    && (|| (left.kind != MustNot && right.kind == MustNot && l == Some(minimum) && r == Some(forbiddenFrom))
        || (left.kind == MustNot && right.kind != MustNot && r == Some(minimum) && l == Some(forbiddenFrom)))
  }

  /** One demands and the other forbids names of the same pattern. */
  predicate NamesOpposed(left: Rule, right: Rule) {
    && left.namingConvention.Some? && left.namingConvention.value != "" && left.namingConvention == right.namingConvention
    && (left.kind == MustNot) != (right.kind == MustNot)
  }

  /** A conflict is reported exactly when backups, amounts or names are opposed, and the first of these
      is the reason, with its numbers. */
  lemma ConflictExactly(left: Rule, right: Rule)
    ensures var noVcpus := forall m, f :: !AmountsOpposed(left, right, left.minVcpu, right.minVcpu, m, f);
            var noRam := forall m, f :: !AmountsOpposed(left, right, left.minRamMb, right.minRamMb, m, f);
            match RuleConflict(left, right)
            case Some(BackupsClash) => BackupsOpposed(left, right)
            case Some(QuantitiesClash(Vcpus, m, f)) =>
              !BackupsOpposed(left, right) && AmountsOpposed(left, right, left.minVcpu, right.minVcpu, m, f)
            case Some(QuantitiesClash(RamMb, m, f)) =>
              !BackupsOpposed(left, right) && noVcpus && AmountsOpposed(left, right, left.minRamMb, right.minRamMb, m, f)
            case Some(NamesClash(pattern)) =>
              !BackupsOpposed(left, right) && noVcpus && noRam && NamesOpposed(left, right) && left.namingConvention == Some(pattern)
            case None => !BackupsOpposed(left, right) && noVcpus && noRam && !NamesOpposed(left, right)
  {
    AmountsExactly(left, right, Vcpus, left.minVcpu, right.minVcpu);
    AmountsExactly(left, right, RamMb, left.minRamMb, right.minRamMb);
    hide QuantityConflict, AmountsOpposed;
  }

  lemma AmountsExactly(left: Rule, right: Rule, q: Quantity, l: Option<int>, r: Option<int>)
    requires Bound(left, q) == l && Bound(right, q) == r
    ensures match QuantityConflict(left, right, q)
            case None => forall m, f :: !AmountsOpposed(left, right, l, r, m, f)
            case Some(reason) => reason.QuantitiesClash? && reason.q == q && AmountsOpposed(left, right, l, r, reason.minimum, reason.forbiddenFrom)
  {
  }

  lemma ConflictIsSymmetric(left: Rule, right: Rule)
    ensures RuleConflict(left, right).Some? <==> RuleConflict(right, left).Some?
  {
  }

  lemma NoAmountForBoth(left: Rule, right: Rule, q: Quantity, amount: Option<int>)
    requires QuantityConflict(left, right, q).Some?
    ensures !(Satisfies(amount, left, q) && Satisfies(amount, right, q))
  {
  }

  /** A reported conflict is real: no target passes both rules. */
  lemma ConflictIsReal(rt: Runtime, left: Rule, right: Rule, target: Target, includeShould: bool)
    requires RuleConflict(left, right).Some?
    ensures !(RuleVerdict(rt, left, target, includeShould) == Pass && RuleVerdict(rt, right, target, includeShould) == Pass)
  {
    VerdictMeans(rt, left, target, includeShould);
    VerdictMeans(rt, right, target, includeShould);
    forall q: Quantity | QuantityConflict(left, right, q).Some?
      ensures !(Satisfies(Amount(target, q), left, q) && Satisfies(Amount(target, q), right, q))
    {
      NoAmountForBoth(left, right, q, Amount(target, q));
    }
  }

  // ---------------------------------------------------- pairwise implies joint

  /** No two applicable rules conflict. */
  predicate PairwiseFree(rules: seq<Rule>, includeShould: bool) {
    forall i, j | 0 <= i < |rules| && 0 <= j < |rules| && Applies(rules[i], includeShould) && Applies(rules[j], includeShould) ::
      RuleConflict(rules[i], rules[j]).None?
  }

  /** No conflict but that over names, which concerns only targets that have one. */
  predicate Compatible(left: Rule, right: Rule) {
    RuleConflict(left, right).None? || RuleConflict(left, right).value.NamesClash?
  }

  /** No two applicable rules conflict over amounts or backups. */
  predicate PairwiseCompatible(rules: seq<Rule>, includeShould: bool) {
    forall i, j | 0 <= i < |rules| && 0 <= j < |rules| && Applies(rules[i], includeShould) && Applies(rules[j], includeShould) ::
      Compatible(rules[i], rules[j])
  }

  predicate Nameless(rules: seq<Rule>, includeShould: bool) {
    forall i | 0 <= i < |rules| && Applies(rules[i], includeShould) :: !NamesPattern(rules[i])
  }

  lemma NamelessFree(rules: seq<Rule>, includeShould: bool)
    ensures PairwiseFree(rules, includeShould) ==> PairwiseCompatible(rules, includeShould)
    ensures Nameless(rules, includeShould) ==> (PairwiseFree(rules, includeShould) <==> PairwiseCompatible(rules, includeShould))
  {
    if Nameless(rules, includeShould) && PairwiseCompatible(rules, includeShould) {
      forall i, j | 0 <= i < |rules| && 0 <= j < |rules| && Applies(rules[i], includeShould) && Applies(rules[j], includeShould)
        ensures RuleConflict(rules[i], rules[j]).None?
      {
        assert Compatible(rules[i], rules[j]) && !NamesPattern(rules[i]);
      }
    }
  }

  /** Applicable prohibitions leave some amount from `floor` on. */
  predicate LeavesRoom(rules: seq<Rule>, includeShould: bool, floor: int) {
    forall i, q: Quantity | 0 <= i < |rules| && Applies(rules[i], includeShould) && Prohibits(rules[i]) && Bound(rules[i], q).Some? ::
      Bound(rules[i], q).value > floor
  }

  /** A target with known amounts of at least `floor` and a known backup state. */
  predicate Specified(target: Target, floor: int) {
    && target.vcpus.Some? && target.vcpus.value >= floor
    && target.ramMb.Some? && target.ramMb.value >= floor
    && target.backupEnabled.Some?
  }

  ghost predicate FailsNone(rt: Runtime, rules: seq<Rule>, target: Target, includeShould: bool) {
    forall i | 0 <= i < |rules| :: RuleVerdict(rt, rules[i], target, includeShould) != Fail
  }

  /** The largest amount that an applicable rule demands, or the floor. */
  function Demanded(rules: seq<Rule>, includeShould: bool, q: Quantity, floor: int): (amount: int)
    ensures amount >= floor
    ensures forall i | 0 <= i < |rules| && Applies(rules[i], includeShould) && !Prohibits(rules[i]) && Bound(rules[i], q).Some? ::
              amount >= Bound(rules[i], q).value
    ensures amount == floor
            || exists i :: 0 <= i < |rules| && Applies(rules[i], includeShould) && !Prohibits(rules[i]) && Bound(rules[i], q) == Some(amount)
  {
    if rules == [] then floor
    else
      var rest := Demanded(rules[1..], includeShould, q, floor);
      var first := rules[0];
      assert forall i | 1 <= i < |rules| :: rules[i] == rules[1..][i - 1];
      if Applies(first, includeShould) && !Prohibits(first) && Bound(first, q).Some? && Bound(first, q).value > rest
      then Bound(first, q).value else rest
  }

  /** The backup state that the first applicable rule about backups asks for. */
  function Backup(rules: seq<Rule>, includeShould: bool): (b: bool)
    ensures (forall i | 0 <= i < |rules| && Applies(rules[i], includeShould) :: rules[i].backupRequired.None?)
            || exists i :: 0 <= i < |rules| && Applies(rules[i], includeShould) && rules[i].backupRequired.Some?
                           && b == (rules[i].backupRequired.value != Prohibits(rules[i]))
  {
    if rules == [] then false
    else
      assert forall i | 1 <= i < |rules| :: rules[i] == rules[1..][i - 1];
      if Applies(rules[0], includeShould) && rules[0].backupRequired.Some?
      then rules[0].backupRequired.value != Prohibits(rules[0])
      else Backup(rules[1..], includeShould)
  }

  function Witness(rules: seq<Rule>, includeShould: bool, floor: int): Target {
    Target(Some(Demanded(rules, includeShould, Vcpus, floor)), Some(Demanded(rules, includeShould, RamMb, floor)),
           Some(Backup(rules, includeShould)), [], [], None)
  }

  lemma CompatibleAmounts(left: Rule, right: Rule, q: Quantity)
    requires Compatible(left, right)
    ensures QuantityConflict(left, right, q).None?
  {
  }

  lemma WitnessAmount(rules: seq<Rule>, includeShould: bool, floor: int, i: nat, q: Quantity)
    requires PairwiseCompatible(rules, includeShould) && LeavesRoom(rules, includeShould, floor)
    requires i < |rules| && Applies(rules[i], includeShould) && Bound(rules[i], q).Some?
    ensures Respects(Demanded(rules, includeShould, q, floor), Bound(rules[i], q).value, Prohibits(rules[i]))
  {
    hide Compatible, RuleConflict;
    var amount := Demanded(rules, includeShould, q, floor);
    if Prohibits(rules[i]) && amount != floor {
      var j :| 0 <= j < |rules| && Applies(rules[j], includeShould) && !Prohibits(rules[j]) && Bound(rules[j], q) == Some(amount);
      assert Compatible(rules[j], rules[i]);
      CompatibleAmounts(rules[j], rules[i], q);
    }
  }

  lemma WitnessFailsNone(rt: Runtime, rules: seq<Rule>, includeShould: bool, floor: int, i: nat)
    requires PairwiseCompatible(rules, includeShould) && LeavesRoom(rules, includeShould, floor)
    requires i < |rules|
    ensures RuleVerdict(rt, rules[i], Witness(rules, includeShould, floor), includeShould) != Fail
  {
    var rule, target := rules[i], Witness(rules, includeShould, floor);
    VerdictMeans(rt, rule, target, includeShould);
    if Applies(rule, includeShould) {
      forall q: Quantity ensures Satisfies(Amount(target, q), rule, q) {
        if Bound(rule, q).Some? { WitnessAmount(rules, includeShould, floor, i, q); }
      }
      if rule.backupRequired.Some? { WitnessBackup(rules, includeShould, i); }
    }
  }

  lemma WitnessBackup(rules: seq<Rule>, includeShould: bool, i: nat)
    requires PairwiseCompatible(rules, includeShould)
    requires i < |rules| && Applies(rules[i], includeShould) && rules[i].backupRequired.Some?
    ensures Backup(rules, includeShould) == (rules[i].backupRequired.value != Prohibits(rules[i]))
  {
    var j :| 0 <= j < |rules| && Applies(rules[j], includeShould) && rules[j].backupRequired.Some?
             && Backup(rules, includeShould) == (rules[j].backupRequired.value != Prohibits(rules[j]));
    assert Compatible(rules[i], rules[j]);
  }

  /** Two applicable rules of which a specified target fails neither conflict over names at most. */
  lemma SatisfiedPairIsCompatible(rt: Runtime, left: Rule, right: Rule, target: Target, includeShould: bool, floor: int)
    requires Applies(left, includeShould) && Applies(right, includeShould) && Specified(target, floor)
    requires RuleVerdict(rt, left, target, includeShould) != Fail && RuleVerdict(rt, right, target, includeShould) != Fail
    ensures Compatible(left, right)
  {
    forall q: Quantity ensures QuantityConflict(left, right, q).None? {
      NotFailing(rt, left, target, includeShould, floor, q);
      NotFailing(rt, right, target, includeShould, floor, q);
      if QuantityConflict(left, right, q).Some? { NoAmountForBoth(left, right, q, Amount(target, q)); }
    }
    NotFailing(rt, left, target, includeShould, floor, Vcpus);
    NotFailing(rt, right, target, includeShould, floor, Vcpus);
  }

  lemma NotFailing(rt: Runtime, rule: Rule, target: Target, includeShould: bool, floor: int, q: Quantity)
    requires Applies(rule, includeShould) && Specified(target, floor) && RuleVerdict(rt, rule, target, includeShould) != Fail
    ensures Satisfies(Amount(target, q), rule, q)
    ensures rule.backupRequired.Some? ==> target.backupEnabled.value == (rule.backupRequired.value != Prohibits(rule))
  {
    VerdictMeans(rt, rule, target, includeShould);
    assert Amount(target, q).Some?;
  }

  /** The pairwise check decides joint satisfiability, for any number of rules: some specified target
      with amounts from `floor` on fails none of them exactly when no two conflict over amounts or
      backups and no prohibition forbids every amount from `floor` on.  Without naming conventions
      among the applicable rules, no two conflicting at all is the same. */
  lemma PairwiseDecidesJoint(rt: Runtime, rules: seq<Rule>, includeShould: bool, floor: int)
    ensures (exists target :: Specified(target, floor) && FailsNone(rt, rules, target, includeShould))
            <==> PairwiseCompatible(rules, includeShould) && LeavesRoom(rules, includeShould, floor)
    ensures PairwiseFree(rules, includeShould) ==> PairwiseCompatible(rules, includeShould)
    ensures Nameless(rules, includeShould) ==> (PairwiseFree(rules, includeShould) <==> PairwiseCompatible(rules, includeShould))
  {
    NamelessFree(rules, includeShould);
    if PairwiseCompatible(rules, includeShould) && LeavesRoom(rules, includeShould, floor) {
      var target := Witness(rules, includeShould, floor);
      forall i | 0 <= i < |rules| ensures RuleVerdict(rt, rules[i], target, includeShould) != Fail {
        WitnessFailsNone(rt, rules, includeShould, floor, i);
      }
      assert Specified(target, floor) && FailsNone(rt, rules, target, includeShould);
    }
    if target :| Specified(target, floor) && FailsNone(rt, rules, target, includeShould) {
      SatisfiedMeans(rt, rules, target, includeShould, floor);
    }
  }

  lemma SatisfiedMeans(rt: Runtime, rules: seq<Rule>, target: Target, includeShould: bool, floor: int)
    requires Specified(target, floor) && FailsNone(rt, rules, target, includeShould)
    ensures PairwiseCompatible(rules, includeShould) && LeavesRoom(rules, includeShould, floor)
  {
    forall i, j | 0 <= i < |rules| && 0 <= j < |rules| && Applies(rules[i], includeShould) && Applies(rules[j], includeShould)
      ensures Compatible(rules[i], rules[j])
    {
      SatisfiedPairIsCompatible(rt, rules[i], rules[j], target, includeShould, floor);
    }
    forall i, q: Quantity | 0 <= i < |rules| && Applies(rules[i], includeShould) && Prohibits(rules[i]) && Bound(rules[i], q).Some?
      ensures Bound(rules[i], q).value > floor
    {
      NotFailing(rt, rules[i], target, includeShould, floor, q);
    }
  }

  // --------------------------------------------------------- all pairs of standards

  datatype Conflict = Conflict(left: string, right: string, reason: Reason)

  function PairHits(left: Standard, right: Standard, rule: Rule, b: nat): seq<Conflict>
    requires b <= |right.rules|
  {
    if b == 0 then []
    else
      var reason := RuleConflict(rule, right.rules[b - 1]);
      PairHits(left, right, rule, b - 1) + if reason.Some? then [Conflict(left.id, right.id, reason.value)] else []
  }

  function RuleHits(left: Standard, right: Standard, a: nat): seq<Conflict>
    requires a <= |left.rules|
  {
    if a == 0 then [] else RuleHits(left, right, a - 1) + PairHits(left, right, left.rules[a - 1], |right.rules|)
  }

  function RightHits(standards: seq<Standard>, i: nat, j: nat): seq<Conflict>
    requires i < j <= |standards|
    decreases j
  {
    if j == i + 1 then []
    else RightHits(standards, i, j - 1) + RuleHits(standards[i], standards[j - 1], |standards[i].rules|)
  }

  function AllHits(standards: seq<Standard>, i: nat): seq<Conflict>
    requires i <= |standards|
  {
    if i == 0 then [] else AllHits(standards, i - 1) + RightHits(standards, i - 1, |standards|)
  }

  const MAX_CONFLICTS := 100

  /** The two inner loops: all rules of one standard against all of another. */
  method AppendRuleConflicts(found: seq<Conflict>, left: Standard, right: Standard) returns (conflicts: seq<Conflict>)
    ensures conflicts == found + RuleHits(left, right, |left.rules|)
  {
    conflicts := found;
    for a := 0 to |left.rules|
      invariant conflicts == found + RuleHits(left, right, a)
    {
      ghost var before := conflicts;
      for b := 0 to |right.rules|
        invariant conflicts == before + PairHits(left, right, left.rules[a], b)
      {
        var reason := RuleConflict(left.rules[a], right.rules[b]);
        if reason.Some? { conflicts := conflicts + [Conflict(left.id, right.id, reason.value)]; }
      }
    }
  }

  method DetectStandardConflicts(standards: seq<Standard>) returns (conflicts: seq<Conflict>)
    ensures |conflicts| <= 100 && conflicts <= AllHits(standards, |standards|)
    ensures |AllHits(standards, |standards|)| > 100 ==> |conflicts| == 100
    ensures |AllHits(standards, |standards|)| <= 100 ==> conflicts == AllHits(standards, |standards|)
    ensures conflicts == [] <==> CrossFree(standards)
  {
    hide RuleHits, CrossFree;
    var found := [];
    for i := 0 to |standards|
      invariant found == AllHits(standards, i)
    {
      ghost var before := found;
      for j := i + 1 to |standards|
        invariant found == before + RightHits(standards, i, j)
      {
        found := AppendRuleConflicts(found, standards[i], standards[j]);
      }
    }
    NoHits(standards);
    conflicts := if |found| > MAX_CONFLICTS then found[..MAX_CONFLICTS] else found;
  }

  /** c names these two standards and the reason why a rule of one conflicts with one of the other. */
  predicate Clashes(left: Standard, right: Standard, c: Conflict) {
    && c.left == left.id && c.right == right.id
    && exists a :: 0 <= a < |left.rules| && RuleClashes(left.rules[a], right, c.reason)
  }

  predicate RuleClashes(rule: Rule, right: Standard, reason: Reason) {
    exists b :: 0 <= b < |right.rules| && RuleConflict(rule, right.rules[b]) == Some(reason)
  }

  lemma {:induction false} PairHitsExactly(left: Standard, right: Standard, rule: Rule, b: nat, c: Conflict)
    requires b <= |right.rules|
    ensures c in PairHits(left, right, rule, b) <==>
            c.left == left.id && c.right == right.id && exists k :: 0 <= k < b && RuleConflict(rule, right.rules[k]) == Some(c.reason)
  {
    if b > 0 {
      PairHitsExactly(left, right, rule, b - 1, c);
      assert RuleConflict(rule, right.rules[b - 1]) == Some(c.reason) || RuleConflict(rule, right.rules[b - 1]) != Some(c.reason);
    }
  }

  lemma {:induction false} RuleHitsExactly(left: Standard, right: Standard, a: nat, c: Conflict)
    requires a <= |left.rules|
    ensures c in RuleHits(left, right, a) <==>
            c.left == left.id && c.right == right.id && exists k :: 0 <= k < a && RuleClashes(left.rules[k], right, c.reason)
  {
    if a > 0 {
      RuleHitsExactly(left, right, a - 1, c);
      PairHitsExactly(left, right, left.rules[a - 1], |right.rules|, c);
      assert RuleClashes(left.rules[a - 1], right, c.reason) || !RuleClashes(left.rules[a - 1], right, c.reason);
    }
  }

  lemma AllRuleHits(left: Standard, right: Standard, c: Conflict)
    ensures c in RuleHits(left, right, |left.rules|) <==> Clashes(left, right, c)
  {
    RuleHitsExactly(left, right, |left.rules|, c);
  }

  lemma {:induction false} RightHitsExactly(standards: seq<Standard>, i: nat, j: nat, c: Conflict)
    requires i < j <= |standards|
    ensures c in RightHits(standards, i, j) <==> exists k :: i < k < j && Clashes(standards[i], standards[k], c)
    decreases j
  {
    hide Clashes, RuleHits;
    if j > i + 1 {
      RightHitsExactly(standards, i, j - 1, c);
      AllRuleHits(standards[i], standards[j - 1], c);
      assert Clashes(standards[i], standards[j - 1], c) || !Clashes(standards[i], standards[j - 1], c);
    }
  }

  /** c was found for standard i and a later one. */
  predicate FoundFor(standards: seq<Standard>, i: nat, c: Conflict)
    requires i < |standards|
  {
    exists k :: i < k < |standards| && Clashes(standards[i], standards[k], c)
  }

  lemma AllRightHits(standards: seq<Standard>, i: nat, c: Conflict)
    requires i < |standards|
    ensures c in RightHits(standards, i, |standards|) <==> FoundFor(standards, i, c)
  {
    RightHitsExactly(standards, i, |standards|, c);
  }

  /** Before the cap, exactly the clashes between a standard and a later one are found. */
  lemma {:induction false} AllHitsExactly(standards: seq<Standard>, i: nat, c: Conflict)
    requires i <= |standards|
    ensures c in AllHits(standards, i) <==> exists k :: 0 <= k < i && FoundFor(standards, k, c)
  {
    hide FoundFor, RightHits;
    if i > 0 {
      AllHitsExactly(standards, i - 1, c);
      AllRightHits(standards, i - 1, c);
      assert FoundFor(standards, i - 1, c) || !FoundFor(standards, i - 1, c);
    }
  }

  predicate RulesFree(left: Standard, right: Standard) {
    forall a, b | 0 <= a < |left.rules| && 0 <= b < |right.rules| :: RuleConflict(left.rules[a], right.rules[b]).None?
  }

  /** No rule of one standard conflicts with a rule of a later one. */
  predicate CrossFree(standards: seq<Standard>) {
    forall i, j | 0 <= i < j < |standards| :: RulesFree(standards[i], standards[j])
  }

  /** Nothing is found exactly when there is nothing to find. */
  lemma NoHits(standards: seq<Standard>)
    ensures AllHits(standards, |standards|) == [] <==> CrossFree(standards)
  {
    var hits := AllHits(standards, |standards|);
    if hits != [] {
      AllHitsExactly(standards, |standards|, hits[0]);
      var i :| 0 <= i < |standards| && FoundFor(standards, i, hits[0]);
      var j :| i < j < |standards| && Clashes(standards[i], standards[j], hits[0]);
      assert !RulesFree(standards[i], standards[j]);
    } else {
      forall i, j | 0 <= i < j < |standards| ensures RulesFree(standards[i], standards[j]) { NothingHidden(standards, i, j); }
    }
  }

  lemma NothingHidden(standards: seq<Standard>, i: nat, j: nat)
    requires i < j < |standards| && AllHits(standards, |standards|) == []
    ensures RulesFree(standards[i], standards[j])
  {
    var left, right := standards[i], standards[j];
    forall a, b | 0 <= a < |left.rules| && 0 <= b < |right.rules| ensures RuleConflict(left.rules[a], right.rules[b]).None? {
      if RuleConflict(left.rules[a], right.rules[b]).Some? {
        var c := Conflict(left.id, right.id, RuleConflict(left.rules[a], right.rules[b]).value);
        assert RuleClashes(left.rules[a], right, c.reason);
        assert Clashes(left, right, c) && FoundFor(standards, i, c);
        AllHitsExactly(standards, |standards|, c);
      }
    }
  }

  function AllRules(standards: seq<Standard>): seq<Rule> {
    if standards == [] then [] else AllRules(standards[..|standards| - 1]) + standards[|standards| - 1].rules
  }

  lemma {:induction false} AllRulesMembers(standards: seq<Standard>, rule: Rule)
    ensures rule in AllRules(standards) <==> exists k :: 0 <= k < |standards| && rule in standards[k].rules
  {
    if standards != [] {
      var front, last := standards[..|standards| - 1], standards[|standards| - 1];
      AllRulesMembers(front, rule);
      if rule in last.rules { assert rule in standards[|standards| - 1].rules; }
      if k :| 0 <= k < |front| && rule in front[k].rules { assert rule in standards[k].rules; }
      if k :| 0 <= k < |standards| && rule in standards[k].rules && rule !in last.rules { assert rule in front[k].rules; }
    }
  }

  /** No two rules of the same standard conflict either. */
  predicate WithinFree(standards: seq<Standard>) {
    forall i | 0 <= i < |standards| :: RulesFree(standards[i], standards[i])
  }

  lemma FreeAcross(standards: seq<Standard>, i: nat, j: nat, left: Rule, right: Rule)
    requires CrossFree(standards) && WithinFree(standards)
    requires i < |standards| && j < |standards| && left in standards[i].rules && right in standards[j].rules
    ensures RuleConflict(left, right).None?
  {
    hide RuleConflict;
    ConflictIsSymmetric(left, right);
    var a :| 0 <= a < |standards[i].rules| && standards[i].rules[a] == left;
    var b :| 0 <= b < |standards[j].rules| && standards[j].rules[b] == right;
    if i <= j { assert RulesFree(standards[i], standards[j]); } else { assert RulesFree(standards[j], standards[i]); }
  }

  lemma FreeTogether(standards: seq<Standard>, includeShould: bool)
    requires CrossFree(standards) && WithinFree(standards)
    ensures PairwiseFree(AllRules(standards), includeShould)
  {
    hide RuleConflict, AllRules, CrossFree, WithinFree;
    var rules := AllRules(standards);
    forall i, j | 0 <= i < |rules| && 0 <= j < |rules| && Applies(rules[i], includeShould) && Applies(rules[j], includeShould)
      ensures RuleConflict(rules[i], rules[j]).None?
    {
      AllRulesMembers(standards, rules[i]);
      AllRulesMembers(standards, rules[j]);
      var k :| 0 <= k < |standards| && rules[i] in standards[k].rules;
      var l :| 0 <= l < |standards| && rules[j] in standards[l].rules;
      FreeAcross(standards, k, l, rules[i], rules[j]);
    }
  }

  lemma FreeApart(standards: seq<Standard>, i: nat, j: nat)
    requires PairwiseFree(AllRules(standards), true) && i < |standards| && j < |standards|
    ensures RulesFree(standards[i], standards[j])
  {
    hide RuleConflict, AllRules;
    var rules := AllRules(standards);
    forall a, b | 0 <= a < |standards[i].rules| && 0 <= b < |standards[j].rules|
      ensures RuleConflict(standards[i].rules[a], standards[j].rules[b]).None?
    {
      AllRulesMembers(standards, standards[i].rules[a]);
      AllRulesMembers(standards, standards[j].rules[b]);
      var m :| 0 <= m < |rules| && rules[m] == standards[i].rules[a];
      var n :| 0 <= n < |rules| && rules[n] == standards[j].rules[b];
    }
  }

  /** What an empty result of `detectStandardConflicts` means.  Together with no conflict inside a
      standard and prohibitions that leave room, it gives a specified target that fails no rule of any
      standard; without naming conventions, and with SHOULD rules included, there is one only then. */
  lemma NoConflictsMeansSatisfiable(rt: Runtime, standards: seq<Standard>, includeShould: bool, floor: int)
    ensures CrossFree(standards) && WithinFree(standards) && LeavesRoom(AllRules(standards), includeShould, floor) ==>
            exists target :: Specified(target, floor) && FailsNone(rt, AllRules(standards), target, includeShould)
    ensures includeShould && Nameless(AllRules(standards), true) ==>
            ((exists target :: Specified(target, floor) && FailsNone(rt, AllRules(standards), target, true))
             <==> CrossFree(standards) && WithinFree(standards) && LeavesRoom(AllRules(standards), true, floor))
  {
    hide FailsNone, Specified, LeavesRoom, AllRules, CrossFree, WithinFree, PairwiseFree, PairwiseCompatible, Nameless;
    PairwiseDecidesJoint(rt, AllRules(standards), includeShould, floor);
    if CrossFree(standards) && WithinFree(standards) { FreeTogether(standards, includeShould); }
    if includeShould && PairwiseFree(AllRules(standards), true) { FreeEverywhere(standards); }
  }

  lemma FreeEverywhere(standards: seq<Standard>)
    requires PairwiseFree(AllRules(standards), true)
    ensures CrossFree(standards) && WithinFree(standards)
  {
    forall i, j | 0 <= i < |standards| && 0 <= j < |standards| ensures RulesFree(standards[i], standards[j]) {
      FreeApart(standards, i, j);
    }
  }

  // ----------------------------------------------------------------- the evaluation

  datatype Result = Compliant | NonCompliant | Undecided

  datatype Check = Check(kind: RuleType, result: Verdict)

  predicate Mandatory(kind: RuleType) { kind.Must? || kind.MustNot? }

  /** `evaluate`: one check per rule in order, and the overall result of the mandatory ones. */
  method Evaluate(rt: Runtime, standards: seq<Standard>, target: Target, includeShould: bool) returns (result: Result, checks: seq<Check>)
    ensures |checks| == |AllRules(standards)|
    ensures forall i | 0 <= i < |checks| ::
              checks[i] == Check(AllRules(standards)[i].kind, RuleVerdict(rt, AllRules(standards)[i], target, includeShould))
    ensures result == Overall(checks)
    ensures result == NonCompliant <==> exists c :: c in checks && (c.kind == Must || c.kind == MustNot) && c.result == Fail
    ensures result == Compliant <==>
            && (exists c :: c in checks && (c.kind == Must || c.kind == MustNot))
            && (forall c | c in checks && (c.kind == Must || c.kind == MustNot) :: c.result == Pass)
  {
    checks := [];
    for s := 0 to |standards|
      invariant |checks| == |AllRules(standards[..s])|
      invariant forall i | 0 <= i < |checks| ::
                  checks[i] == Check(AllRules(standards[..s])[i].kind, RuleVerdict(rt, AllRules(standards[..s])[i], target, includeShould))
    {
      assert standards[..s + 1][..s] == standards[..s];
      ghost var before := AllRules(standards[..s]);
      for r := 0 to |standards[s].rules|
        invariant |checks| == |before + standards[s].rules[..r]|
        invariant forall i | 0 <= i < |checks| ::
                    checks[i] == Check((before + standards[s].rules[..r])[i].kind,
                                       RuleVerdict(rt, (before + standards[s].rules[..r])[i], target, includeShould))
      {
        var verdict := EvaluateRule(rt, standards[s].rules[r], target, includeShould);
        checks := checks + [Check(standards[s].rules[r].kind, verdict)];
      }
      assert standards[s].rules[..|standards[s].rules|] == standards[s].rules;
    }
    assert standards[..|standards|] == standards;
    result := Overall(checks);
    MandatoryApply(rt, standards, target, includeShould, checks);
  }

  function Overall(checks: seq<Check>): Result {
    if exists c | c in checks :: Mandatory(c.kind) && c.result == Fail then NonCompliant
    else if (forall c | c in checks :: !Mandatory(c.kind) || c.result == NotApplicable)
            || exists c | c in checks :: Mandatory(c.kind) && c.result == Unknown then Undecided
    else Compliant
  }

  lemma MandatoryApply(rt: Runtime, standards: seq<Standard>, target: Target, includeShould: bool, checks: seq<Check>)
    requires |checks| == |AllRules(standards)|
    requires forall i | 0 <= i < |checks| ::
               checks[i] == Check(AllRules(standards)[i].kind, RuleVerdict(rt, AllRules(standards)[i], target, includeShould))
    ensures forall c | c in checks && Mandatory(c.kind) :: c.result != NotApplicable
  {
  }

  /** Two conflicting mandatory rules: whatever the target, the checks are never compliant. */
  lemma ConflictPreventsCompliance(
      rt: Runtime, standards: seq<Standard>, target: Target, includeShould: bool, checks: seq<Check>, i: nat, j: nat)
    requires |checks| == |AllRules(standards)|
    requires forall k | 0 <= k < |checks| ::
               checks[k] == Check(AllRules(standards)[k].kind, RuleVerdict(rt, AllRules(standards)[k], target, includeShould))
    requires i < |checks| && j < |checks|
    requires Mandatory(AllRules(standards)[i].kind) && Mandatory(AllRules(standards)[j].kind)
    requires RuleConflict(AllRules(standards)[i], AllRules(standards)[j]).Some?
    ensures Overall(checks) != Compliant
  {
    hide RuleVerdict, RuleConflict, AllRules;
    MandatoryApply(rt, standards, target, includeShould, checks);
    ConflictIsReal(rt, AllRules(standards)[i], AllRules(standards)[j], target, includeShould);
    assert checks[i] in checks && checks[j] in checks;
  }
}
