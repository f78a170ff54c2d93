/**
 Editing the template rules of inventory sources. Every change is decided on the rules as they
 are once the lock is held, so a run of the lock's sections in their order is all there is. A
 section changes the records in memory and then saves them, and the save may reject.
 */
module TemplateRules {
  import opened Records

  /** The rules of each source, and the revision each template is at. */
  datatype Book = Book(rules: map<Id, seq<Rule>>, templates: map<Id, Id>)

  /** The delta an editor sends, with the rule as its author saw it. */
  datatype Change =
    | Add(rule: Rule)
    | Replace(seen: Rule, templateId: Id, filter: Option<string>)
    | Remove(ruleId: Id)

  /** A section of the lock and whether its saves are accepted; a deletion saves the templates and then the swept rules. */
  datatype Op =
    | SaveRules(sourceId: Id, change: Change, saved: bool)
    | DeleteTemplate(templateId: Id, revision: Id, referencing: set<Id>, saved: bool, swept: bool)
    | SaveTemplate(templateId: Id, revision: Id, saved: bool)
    | RemoveSource(sourceId: Id, saved: bool)

  // ---- one section of the lock --------------------------------------------------------

  /** `find` by id. */
  function FindRule(rules: seq<Rule>, id: Id): Option<Rule> {
    if rules == [] then None else if rules[0].id == id then Some(rules[0]) else FindRule(rules[1..], id)
  }

  function Written(c: Change): Rule
    requires c.Replace?
  {
    Rule(c.seen.id, c.templateId, c.filter)
  }

  function ReplaceById(rules: seq<Rule>, rule: Rule): seq<Rule> {
    seq(|rules|, i requires 0 <= i < |rules| => if rules[i].id == rule.id then rule else rules[i])
  }

  function Without(rules: seq<Rule>, ruleId: Id): seq<Rule> {
    if rules == [] then [] else (if rules[0].id == ruleId then [] else [rules[0]]) + Without(rules[1..], ruleId)
  }

  function WithoutTemplate(rules: seq<Rule>, templateId: Id): seq<Rule> {
    if rules == [] then []
    else (if rules[0].templateId == templateId then [] else [rules[0]]) + WithoutTemplate(rules[1..], templateId)
  }

  /** The new rules, or `None` when the rule the author saw has changed or gone. */
  function Applied(rules: seq<Rule>, c: Change): Option<seq<Rule>> {
    match c
    case Add(rule) => Some(rules + [rule])
    case Replace(seen, _, _) => if FindRule(rules, seen.id) == Some(seen) then Some(ReplaceById(rules, Written(c))) else None
    case Remove(ruleId) => Some(Without(rules, ruleId))
  }

  /** The rule a change writes, if it writes one. */
  function ChangedRule(c: Change): Option<Rule> {
    match c
    case Add(rule) => Some(rule)
    case Replace(_, _, _) => Some(Written(c))
    case Remove(_) => None
  }

  predicate SaveAccepted(b: Book, sourceId: Id, c: Change) {
    && sourceId in b.rules && Applied(b.rules[sourceId], c).Some?
    && (ChangedRule(c).Some? ==> ChangedRule(c).value.templateId in b.templates)
  }

  /** `sourcesReferencingTemplate`. */
  function Referencing(b: Book, templateId: Id): set<Id> {
    set s | s in b.rules && exists i :: 0 <= i < |b.rules[s]| && b.rules[s][i].templateId == templateId
  }

  predicate DeleteAccepted(b: Book, templateId: Id, revision: Id, referencing: set<Id>) {
    templateId in b.templates && b.templates[templateId] == revision && Referencing(b, templateId) == referencing
  }

  predicate Accepted(b: Book, op: Op) {
    match op
    case SaveRules(s, c, _) => SaveAccepted(b, s, c)
    case DeleteTemplate(t, revision, referencing, _, _) => DeleteAccepted(b, t, revision, referencing)
    case SaveTemplate(_, _, _) => true
    case RemoveSource(_, _) => true
  }

  /** What is refused changes nothing, and neither does what cannot be saved: the records are put back. */
  predicate TakesEffect(b: Book, op: Op) {
    Accepted(b, op) && op.saved
  }

  /** The records in memory after a section. */
  function After(b: Book, op: Op): Book {
    if !TakesEffect(b, op) then b
    else match op
      case SaveRules(s, c, _) => b.(rules := b.rules[s := Applied(b.rules[s], c).value])
      case DeleteTemplate(t, _, _, _, _) =>
        Book(map s | s in b.rules :: WithoutTemplate(b.rules[s], t), b.templates - {t})
      case SaveTemplate(t, revision, _) => b.(templates := b.templates[t := revision])
      case RemoveSource(s, _) => b.(rules := b.rules - {s})
  }

  function Run(b: Book, ops: seq<Op>): Book
    decreases |ops|
  {
    if ops == [] then b else Run(After(b, ops[0]), ops[1..])
  }

  // ---- what is on disk ----------------------------------------------------------------

  /** The section saves the rules of all sources, and the save is accepted. */
  predicate FilesRules(b: Book, op: Op) {
    && TakesEffect(b, op)
    && match op
       case SaveRules(_, _, _) => true
       case DeleteTemplate(t, _, _, _, swept) => Referencing(b, t) != {} && swept
       case SaveTemplate(_, _, _) => false
       case RemoveSource(_, _) => true
  }

  /** A deletion whose second save is rejected: the template is gone on disk, and the rules naming it are not. */
  predicate LosesSweep(b: Book, op: Op) {
    op.DeleteTemplate? && TakesEffect(b, op) && Referencing(b, op.templateId) != {} && !op.swept
  }

  /** The disk after a section, from the records in memory before it. */
  function Filed(d: Book, b: Book, op: Op): Book {
    Book(if FilesRules(b, op) then After(b, op).rules else d.rules,
         if TakesEffect(b, op) && (op.DeleteTemplate? || op.SaveTemplate?) then After(b, op).templates else d.templates)
  }

  function RunFiled(d: Book, b: Book, ops: seq<Op>): Book
    decreases |ops|
  {
    if ops == [] then d else RunFiled(Filed(d, b, ops[0]), After(b, ops[0]), ops[1..])
  }

  // ---- step by step -------------------------------------------------------------------

  datatype Outcome = Refused | Done | SaveFailed

  class RuleBook {
    var rules: map<Id, seq<Rule>>
    var templates: map<Id, Id>
    var filedRules: map<Id, seq<Rule>>
    var filedTemplates: map<Id, Id>

    constructor (b: Book)
      ensures Stored() == b && OnDisk() == b
    {
      rules, templates := b.rules, b.templates;
      filedRules, filedTemplates := b.rules, b.templates;
    }

    function Stored(): Book
      reads this
    {
      Book(rules, templates)
    }

    function OnDisk(): Book
      reads this
    {
      Book(filedRules, filedTemplates)
    }

    /** `saveTemplateRules`, inside the lock; what is changed is resolved against the rules read here. */
    method SaveTemplateRules(sourceId: Id, c: Change, saved: bool) returns (outcome: Outcome)
      modifies this`rules, this`filedRules
      ensures outcome == if !SaveAccepted(old(Stored()), sourceId, c) then Refused else if saved then Done else SaveFailed
      ensures Stored() == After(old(Stored()), SaveRules(sourceId, c, saved))
      ensures OnDisk() == Filed(old(OnDisk()), old(Stored()), SaveRules(sourceId, c, saved))
    {
      if sourceId !in rules {
        return Refused;
      }
      var current := rules[sourceId];
      var next;
      match c {
        case Add(rule) => next := current + [rule];
        case Replace(seen, _, _) =>
          if FindRule(current, seen.id) != Some(seen) {
            return Refused;
          }
          next := ReplaceRule(current, Written(c));
        case Remove(ruleId) => next := FilterRule(current, ruleId);
      }
      if ChangedRule(c).Some? && ChangedRule(c).value.templateId !in templates {
        return Refused;
      }
      rules := rules[sourceId := next];
      if !saved {
        rules := rules[sourceId := current];
        return SaveFailed;
      }
      filedRules := rules;
      outcome := Done;
    }

    /** `deleteDeviceTemplateFlow`, inside the lock. */
    method DeleteDeviceTemplate(templateId: Id, revision: Id, referencing: set<Id>, saved: bool, swept: bool) returns (outcome: Outcome)
      modifies this
      ensures
        outcome == if !DeleteAccepted(old(Stored()), templateId, revision, referencing) then Refused
                   else if saved && (referencing == {} || swept) then Done else SaveFailed
      ensures Stored() == After(old(Stored()), DeleteTemplate(templateId, revision, referencing, saved, swept))
      ensures OnDisk() == Filed(old(OnDisk()), old(Stored()), DeleteTemplate(templateId, revision, referencing, saved, swept))
    {
      if templateId !in templates || templates[templateId] != revision || Referencing(Stored(), templateId) != referencing {
        return Refused;
      }
      var previousRules, previousTemplates := rules, templates;
      templates := templates - {templateId};
      SweepRules(templateId);
      if !saved {
        rules, templates := previousRules, previousTemplates;
        return SaveFailed;
      }
      filedTemplates := templates;
      if referencing != {} {
        if !swept {
          return SaveFailed;
        }
        filedRules := rules;
      }
      outcome := Done;
    }

    method SweepRules(templateId: Id)
      modifies this`rules
      ensures rules == map s | s in old(rules) :: WithoutTemplate(old(rules)[s], templateId)
    {
      var todo := rules.Keys;
      while todo != {}
        invariant todo <= rules.Keys == old(rules).Keys
        invariant forall s | s in rules ::
          rules[s] == if s in todo then old(rules)[s] else WithoutTemplate(old(rules)[s], templateId)
        decreases |todo|
      {
        var s :| s in todo;
        var remaining := FilterTemplate(rules[s], templateId);
        rules := rules[s := remaining];
        todo := todo - {s};
      }
    }
  }

  method ReplaceRule(rules: seq<Rule>, rule: Rule) returns (next: seq<Rule>)
    ensures next == ReplaceById(rules, rule)
  {
    next := [];
    var k := 0;
    while k < |rules|
      invariant 0 <= k <= |rules| && next == ReplaceById(rules, rule)[..k]
    {
      next := next + [if rules[k].id == rule.id then rule else rules[k]];
      k := k + 1;
    }
  }

  method FilterRule(rules: seq<Rule>, ruleId: Id) returns (next: seq<Rule>)
    ensures next == Without(rules, ruleId)
  {
    next := [];
    var k := 0;
    while k < |rules|
      invariant 0 <= k <= |rules| && next + Without(rules[k..], ruleId) == Without(rules, ruleId)
    {
      assert rules[k..][1..] == rules[k + 1..];
      if rules[k].id != ruleId {
        next := next + [rules[k]];
      }
      k := k + 1;
    }
  }

  method FilterTemplate(rules: seq<Rule>, templateId: Id) returns (next: seq<Rule>)
    ensures next == WithoutTemplate(rules, templateId)
  {
    next := [];
    var k := 0;
    while k < |rules|
      invariant 0 <= k <= |rules| && next + WithoutTemplate(rules[k..], templateId) == WithoutTemplate(rules, templateId)
    {
      assert rules[k..][1..] == rules[k + 1..];
      if rules[k].templateId != templateId {
        next := next + [rules[k]];
      }
      k := k + 1;
    }
  }

  // ---- no rule names a missing template -----------------------------------------------

  ghost predicate NoneMissing(b: Book) {
    forall s | s in b.rules :: RulesKnown(b.rules[s], b.templates.Keys)
  }

  lemma {:induction false} WithoutIsSubset(rules: seq<Rule>, ruleId: Id)
    ensures forall r :: r in Without(rules, ruleId) <==> r in rules && r.id != ruleId
    decreases |rules|
  {
    if rules != [] {
      assert rules == [rules[0]] + rules[1..];
      WithoutIsSubset(rules[1..], ruleId);
    }
  }

  lemma {:induction false} WithoutTemplateIsSubset(rules: seq<Rule>, templateId: Id)
    ensures forall r :: r in WithoutTemplate(rules, templateId) <==> r in rules && r.templateId != templateId
    decreases |rules|
  {
    if rules != [] {
      assert rules == [rules[0]] + rules[1..];
      WithoutTemplateIsSubset(rules[1..], templateId);
    }
  }

  lemma SubsetKnown(rules: seq<Rule>, fewer: seq<Rule>, templates: set<Id>)
    requires RulesKnown(rules, templates) && forall r | r in fewer :: r in rules
    ensures RulesKnown(fewer, templates)
  {
    forall i | 0 <= i < |fewer| ensures fewer[i].templateId in templates {
      assert fewer[i] in fewer;
    }
  }

  lemma StepLeavesNoneMissing(b: Book, op: Op)
    requires NoneMissing(b)
    ensures NoneMissing(After(b, op))
  {
    if TakesEffect(b, op) {
      match op
      case SaveRules(s, c, _) =>
        assert RulesKnown(b.rules[s], b.templates.Keys);
        match c {
          case Add(rule) =>
          case Replace(_, _, _) =>
            var next := ReplaceById(b.rules[s], Written(c));
            assert |next| == |b.rules[s]|;
          case Remove(ruleId) =>
            WithoutIsSubset(b.rules[s], ruleId);
            SubsetKnown(b.rules[s], Without(b.rules[s], ruleId), b.templates.Keys);
        }
      case DeleteTemplate(t, _, _, _, _) =>
        var after := After(b, op);
        forall s | s in after.rules ensures RulesKnown(after.rules[s], after.templates.Keys) {
          WithoutTemplateIsSubset(b.rules[s], t);
          assert RulesKnown(b.rules[s], b.templates.Keys);
          forall i | 0 <= i < |after.rules[s]| ensures after.rules[s][i].templateId in after.templates {
            assert after.rules[s][i] in after.rules[s];
          }
        }
      case SaveTemplate(_, _, _) =>
        forall s | s in b.rules ensures RulesKnown(b.rules[s], After(b, op).templates.Keys) {
          assert RulesKnown(b.rules[s], b.templates.Keys);
        }
      case RemoveSource(_, _) =>
    }
  }

  /** Over any run of edits, deletions and saves, no rule names a template that is not there. */
  lemma {:induction false} NoRuleNamesMissingTemplate(b: Book, ops: seq<Op>)
    requires NoneMissing(b)
    ensures NoneMissing(Run(b, ops))
    decreases |ops|
  {
    if ops != [] {
      StepLeavesNoneMissing(b, ops[0]);
      NoRuleNamesMissingTemplate(After(b, ops[0]), ops[1..]);
    }
  }

  // ---- each edit replaces what its author saw -----------------------------------------

  /** A rule as it is stored now. */
  function VersionOf(b: Book, sourceId: Id, ruleId: Id): Option<Rule> {
    if sourceId in b.rules then FindRule(b.rules[sourceId], ruleId) else None
  }

  lemma {:induction false} FindReplaced(rules: seq<Rule>, rule: Rule, id: Id)
    ensures FindRule(ReplaceById(rules, rule), id)
         == if id == rule.id && FindRule(rules, id).Some? then Some(rule) else FindRule(rules, id)
    decreases |rules|
  {
    if rules != [] {
      assert ReplaceById(rules, rule)[1..] == ReplaceById(rules[1..], rule);
      FindReplaced(rules[1..], rule, id);
    }
  }

  lemma {:induction false} FindAppended(rules: seq<Rule>, rule: Rule, id: Id)
    ensures FindRule(rules + [rule], id)
         == if FindRule(rules, id).Some? then FindRule(rules, id) else if id == rule.id then Some(rule) else None
    decreases |rules|
  {
    if rules != [] {
      assert (rules + [rule])[1..] == rules[1..] + [rule];
      FindAppended(rules[1..], rule, id);
    }
  }

  lemma {:induction false} FindWithout(rules: seq<Rule>, ruleId: Id, id: Id)
    ensures FindRule(Without(rules, ruleId), id) == if id == ruleId then None else FindRule(rules, id)
    decreases |rules|
  {
    if rules != [] {
      FindWithout(rules[1..], ruleId, id);
      assert ([rules[0]] + Without(rules[1..], ruleId))[1..] == Without(rules[1..], ruleId);
      assert [] + Without(rules[1..], ruleId) == Without(rules[1..], ruleId);
    }
  }

  ghost predicate DistinctRules(rules: seq<Rule>) {
    forall i, j | 0 <= i < j < |rules| :: rules[i].id != rules[j].id
  }

  /** Rule ids are unique within a source. */
  ghost predicate Distinct(b: Book) {
    forall s | s in b.rules :: DistinctRules(b.rules[s])
  }

  /** An added rule has an id no rule of its source has. */
  ghost predicate FreshAdds(b: Book, op: Op) {
    op.SaveRules? && op.change.Add? && op.sourceId in b.rules ==> FindRule(b.rules[op.sourceId], op.change.rule.id).None?
  }

  lemma {:induction false} FindNone(rules: seq<Rule>, id: Id)
    ensures FindRule(rules, id).None? <==> forall i | 0 <= i < |rules| :: rules[i].id != id
    ensures FindRule(rules, id).Some? ==> FindRule(rules, id).value in rules && FindRule(rules, id).value.id == id
    decreases |rules|
  {
    if rules != [] {
      assert rules == [rules[0]] + rules[1..];
      FindNone(rules[1..], id);
      assert forall i | 0 < i < |rules| :: rules[i] == rules[1..][i - 1];
    }
  }

  lemma {:induction false} WithoutStaysDistinct(rules: seq<Rule>, ruleId: Id)
    requires DistinctRules(rules)
    ensures DistinctRules(Without(rules, ruleId))
    decreases |rules|
  {
    if rules != [] {
      WithoutStaysDistinct(rules[1..], ruleId);
      WithoutIsSubset(rules[1..], ruleId);
      HeadStaysDistinct(rules, Without(rules[1..], ruleId));
    }
  }

  lemma {:induction false} WithoutTemplateStaysDistinct(rules: seq<Rule>, templateId: Id)
    requires DistinctRules(rules)
    ensures DistinctRules(WithoutTemplate(rules, templateId))
    decreases |rules|
  {
    if rules != [] {
      WithoutTemplateStaysDistinct(rules[1..], templateId);
      WithoutTemplateIsSubset(rules[1..], templateId);
      HeadStaysDistinct(rules, WithoutTemplate(rules[1..], templateId));
    }
  }

  lemma HeadStaysDistinct(rules: seq<Rule>, rest: seq<Rule>)
    requires rules != [] && DistinctRules(rules) && DistinctRules(rest) && forall r | r in rest :: r in rules[1..]
    ensures DistinctRules([rules[0]] + rest)
  {
    forall j | 0 <= j < |rest| ensures rest[j].id != rules[0].id {
      assert rest[j] in rest;
      var i :| 0 <= i < |rules[1..]| && rules[1..][i] == rest[j];
      assert rules[i + 1] == rest[j];
    }
  }

  lemma StepStaysDistinct(b: Book, op: Op)
    requires Distinct(b) && FreshAdds(b, op)
    ensures Distinct(After(b, op))
  {
    if TakesEffect(b, op) {
      match op
      case SaveRules(s, c, _) =>
        assert DistinctRules(b.rules[s]);
        match c {
          case Add(rule) => FindNone(b.rules[s], rule.id);
          case Replace(_, _, _) =>
          case Remove(ruleId) => WithoutStaysDistinct(b.rules[s], ruleId);
        }
      case DeleteTemplate(t, _, _, _, _) =>
        forall s | s in b.rules ensures DistinctRules(WithoutTemplate(b.rules[s], t)) {
          WithoutTemplateStaysDistinct(b.rules[s], t);
        }
      case SaveTemplate(_, _, _) =>
      case RemoveSource(_, _) =>
    }
  }

  /** The edit of this rule, if this is one and it is accepted. */
  predicate EditsRule(b: Book, op: Op, sourceId: Id, ruleId: Id) {
    op.SaveRules? && op.sourceId == sourceId && op.change.Replace? && op.change.seen.id == ruleId && TakesEffect(b, op)
  }

  /**
   An accepted edit found the very version its author saw and left the one they wrote. Anything
   else leaves the version alone, unless it takes the rule out or brings it in.
   */
  lemma EditReplacesSeenVersion(b: Book, op: Op, sourceId: Id, ruleId: Id)
    requires Distinct(b) && FreshAdds(b, op)
    ensures
      var before, after := VersionOf(b, sourceId, ruleId), VersionOf(After(b, op), sourceId, ruleId);
      if EditsRule(b, op, sourceId, ruleId)
      then before == Some(op.change.seen) && after == Some(Written(op.change))
      else after == before || after == None || before == None
  {
    if TakesEffect(b, op) && sourceId in b.rules {
      match op
      case SaveRules(s, c, _) =>
        if s == sourceId {
          match c {
            case Add(rule) => FindAppended(b.rules[s], rule, ruleId);
            case Replace(_, _, _) =>
              FindReplaced(b.rules[s], Written(c), ruleId);
              FindNone(b.rules[s], ruleId);
            case Remove(id) => FindWithout(b.rules[s], id, ruleId);
          }
        }
      case DeleteTemplate(t, _, _, _, _) => VersionWithoutTemplate(b.rules[sourceId], t, ruleId);
      case SaveTemplate(_, _, _) =>
      case RemoveSource(_, _) =>
    }
  }

  lemma {:induction false} VersionWithoutTemplate(rules: seq<Rule>, templateId: Id, id: Id)
    requires DistinctRules(rules)
    ensures FindRule(WithoutTemplate(rules, templateId), id) == FindRule(rules, id) || FindRule(WithoutTemplate(rules, templateId), id) == None
    decreases |rules|
  {
    if rules != [] {
      VersionWithoutTemplate(rules[1..], templateId, id);
      assert ([rules[0]] + WithoutTemplate(rules[1..], templateId))[1..] == WithoutTemplate(rules[1..], templateId);
      assert [] + WithoutTemplate(rules[1..], templateId) == WithoutTemplate(rules[1..], templateId);
      if rules[0].id == id && rules[0].templateId == templateId {
        FindNone(WithoutTemplate(rules[1..], templateId), id);
        WithoutTemplateIsSubset(rules[1..], templateId);
        forall r | r in rules[1..] ensures r.id != id {
          var i :| 0 <= i < |rules[1..]| && rules[1..][i] == r;
          assert rules[i + 1] == r;
        }
        forall i | 0 <= i < |WithoutTemplate(rules[1..], templateId)| ensures WithoutTemplate(rules[1..], templateId)[i].id != id {
          assert WithoutTemplate(rules[1..], templateId)[i] in WithoutTemplate(rules[1..], templateId);
        }
      }
    }
  }

  /** Every rule id is brought in once at most. */
  ghost predicate FreshRun(b: Book, ops: seq<Op>)
    decreases |ops|
  {
    ops != [] ==> FreshAdds(b, ops[0]) && FreshRun(After(b, ops[0]), ops[1..])
  }

  /** The rule is there at every point of the run. */
  ghost predicate Throughout(b: Book, ops: seq<Op>, sourceId: Id, ruleId: Id)
    decreases |ops|
  {
    VersionOf(b, sourceId, ruleId).Some? && (ops != [] ==> Throughout(After(b, ops[0]), ops[1..], sourceId, ruleId))
  }

  /** The version the accepted edits of a run lead to, each taking the place of the one before. */
  function Chained(b: Book, ops: seq<Op>, sourceId: Id, ruleId: Id, version: Rule): Rule
    decreases |ops|
  {
    if ops == [] then version
    else Chained(After(b, ops[0]), ops[1..], sourceId, ruleId,
                 if EditsRule(b, ops[0], sourceId, ruleId) then Written(ops[0].change) else version)
  }

  /** In the order the lock gave them, each accepted edit saw what the one before it wrote. */
  ghost predicate EachSawTheLast(b: Book, ops: seq<Op>, sourceId: Id, ruleId: Id, version: Rule)
    decreases |ops|
  {
    ops != [] ==>
      && (EditsRule(b, ops[0], sourceId, ruleId) ==> ops[0].change.seen == version)
      && EachSawTheLast(After(b, ops[0]), ops[1..], sourceId, ruleId,
                        if EditsRule(b, ops[0], sourceId, ruleId) then Written(ops[0].change) else version)
  }

  /**
   Whatever else runs, the accepted edits of a rule form one chain: each author saw what the
   one before wrote, and the last one written is what is stored. No edit is lost.
   */
  lemma {:induction false} EditsFormOneChain(b: Book, ops: seq<Op>, sourceId: Id, ruleId: Id)
    requires Distinct(b) && FreshRun(b, ops) && Throughout(b, ops, sourceId, ruleId)
    ensures EachSawTheLast(b, ops, sourceId, ruleId, VersionOf(b, sourceId, ruleId).value)
    ensures VersionOf(Run(b, ops), sourceId, ruleId) == Some(Chained(b, ops, sourceId, ruleId, VersionOf(b, sourceId, ruleId).value))
    decreases |ops|
  {
    if ops != [] {
      StepStaysDistinct(b, ops[0]);
      EditReplacesSeenVersion(b, ops[0], sourceId, ruleId);
      EditsFormOneChain(After(b, ops[0]), ops[1..], sourceId, ruleId);
    }
  }

  /** A deletion goes through only as disclosed, and takes out exactly the rules naming the template. */
  lemma DeletionIsAsDisclosed(b: Book, templateId: Id, revision: Id, referencing: set<Id>, swept: bool, s: Id)
    requires s in b.rules
    ensures
      var op := DeleteTemplate(templateId, revision, referencing, true, swept);
      var after := After(b, op);
      if !TakesEffect(b, op) then after == b
      else
        && templateId !in after.templates && s in after.rules
        && (forall r :: r in after.rules[s] <==> r in b.rules[s] && r.templateId != templateId)
        && (s !in referencing ==> after.rules[s] == b.rules[s])
  {
    WithoutTemplateIsSubset(b.rules[s], templateId);
    if s !in Referencing(b, templateId) {
      NothingToTake(b.rules[s], templateId);
    }
  }

  lemma {:induction false} NothingToTake(rules: seq<Rule>, templateId: Id)
    requires forall i | 0 <= i < |rules| :: rules[i].templateId != templateId
    ensures WithoutTemplate(rules, templateId) == rules
    decreases |rules|
  {
    if rules != [] {
      NothingToTake(rules[1..], templateId);
    }
  }

  // ---- memory and disk ----------------------------------------------------------------

  /** Whether the disk lags after a run: a sweep was lost and no save of the rules has been accepted since. */
  predicate Lags(b: Book, ops: seq<Op>, lagging: bool)
    decreases |ops|
  {
    if ops == [] then lagging
    else Lags(After(b, ops[0]), ops[1..], !FilesRules(b, ops[0]) && (lagging || LosesSweep(b, ops[0])))
  }

  /** The disk still has rules that memory has lost. */
  ghost predicate Behind(d: Book, b: Book) {
    && d.rules.Keys == b.rules.Keys
    && (forall s | s in b.rules :: |b.rules[s]| <= |d.rules[s]|)
    && (exists s :: s in b.rules && |b.rules[s]| < |d.rules[s]|)
  }

  lemma {:induction false} WithoutTemplateLength(rules: seq<Rule>, templateId: Id)
    ensures |WithoutTemplate(rules, templateId)| <= |rules|
    ensures (exists i :: 0 <= i < |rules| && rules[i].templateId == templateId) ==> |WithoutTemplate(rules, templateId)| < |rules|
    decreases |rules|
  {
    if rules != [] {
      WithoutTemplateLength(rules[1..], templateId);
      if i :| 0 <= i < |rules| && rules[i].templateId == templateId {
        assert i > 0 ==> rules[1..][i - 1] == rules[i];
      }
    }
  }

  lemma WithoutTemplateShorter(rules: seq<Rule>, templateId: Id)
    ensures |WithoutTemplate(rules, templateId)| <= |rules|
    ensures |WithoutTemplate(rules, templateId)| == |rules| <==> forall i | 0 <= i < |rules| :: rules[i].templateId != templateId
    ensures |WithoutTemplate(rules, templateId)| == |rules| ==> WithoutTemplate(rules, templateId) == rules
  {
    WithoutTemplateLength(rules, templateId);
    if forall i | 0 <= i < |rules| :: rules[i].templateId != templateId {
      NothingToTake(rules, templateId);
    }
  }

  /** One section keeps the disk equal to memory, or behind it exactly when a sweep was lost. */
  lemma StepFiled(d: Book, b: Book, op: Op, lagging: bool)
    requires d.templates == b.templates && (if lagging then Behind(d, b) else d == b)
    ensures
      var d', b' := Filed(d, b, op), After(b, op);
      && d'.templates == b'.templates
      && if !FilesRules(b, op) && (lagging || LosesSweep(b, op)) then Behind(d', b') else d' == b'
  {
    if op.DeleteTemplate? && TakesEffect(b, op) {
      forall s | s in b.rules
        ensures |WithoutTemplate(b.rules[s], op.templateId)| <= |b.rules[s]|
        ensures s in Referencing(b, op.templateId) ==> |WithoutTemplate(b.rules[s], op.templateId)| < |b.rules[s]|
        ensures s !in Referencing(b, op.templateId) ==> WithoutTemplate(b.rules[s], op.templateId) == b.rules[s]
      {
        WithoutTemplateShorter(b.rules[s], op.templateId);
      }
    }
  }

  lemma {:induction false} RunsFiled(d: Book, b: Book, ops: seq<Op>, lagging: bool)
    requires d.templates == b.templates && (if lagging then Behind(d, b) else d == b)
    ensures
      var d', b' := RunFiled(d, b, ops), Run(b, ops);
      && d'.templates == b'.templates
      && if Lags(b, ops, lagging) then Behind(d', b') else d' == b'
    decreases |ops|
  {
    if ops != [] {
      StepFiled(d, b, ops[0], lagging);
      RunsFiled(Filed(d, b, ops[0]), After(b, ops[0]), ops[1..], !FilesRules(b, ops[0]) && (lagging || LosesSweep(b, ops[0])));
    }
  }

  /**
   After any run, whatever saves were rejected, disk and memory hold the same exactly when no
   deletion since the last accepted save of rules had its second save rejected; and then no rule
   on disk names a missing template either.
   */
  lemma DiskAgreesExactly(b: Book, ops: seq<Op>)
    ensures RunFiled(b, b, ops) == Run(b, ops) <==> !Lags(b, ops, false)
    ensures NoneMissing(b) && !Lags(b, ops, false) ==> NoneMissing(RunFiled(b, b, ops))
  {
    RunsFiled(b, b, ops, false);
    if NoneMissing(b) {
      NoRuleNamesMissingTemplate(b, ops);
    }
  }

  /** A lost sweep does leave a rule on disk that names the deleted template. */
  lemma LostSweepLeavesRules(b: Book, op: Op)
    requires NoneMissing(b) && op.DeleteTemplate? && TakesEffect(b, op)
    ensures NoneMissing(Filed(b, b, op)) <==> !LosesSweep(b, op)
  {
    if LosesSweep(b, op) {
      var s :| s in Referencing(b, op.templateId);
      var i :| 0 <= i < |b.rules[s]| && b.rules[s][i].templateId == op.templateId;
      assert !RulesKnown(Filed(b, b, op).rules[s], Filed(b, b, op).templates.Keys);
    } else {
      StepLeavesNoneMissing(b, op);
      StepFiled(b, b, op, false);
    }
  }

  /**
   What a section leaves on disk: nothing new when it is refused or cannot be saved; otherwise the
   records it saved as they are in memory - the rules of all sources, the templates, or for a
   deletion the templates and then, if there were rules to sweep and they can be saved, the rules.
   */
  lemma FiledExactly(d: Book, b: Book, op: Op)
    ensures
      var filed, after := Filed(d, b, op), After(b, op);
      if !Accepted(b, op) || !op.saved then filed == d
      else match op
        case SaveRules(_, _, _) => filed == Book(after.rules, d.templates)
        case RemoveSource(_, _) => filed == Book(after.rules, d.templates)
        case SaveTemplate(_, _, _) => filed == Book(d.rules, after.templates)
        case DeleteTemplate(t, _, referencing, _, swept) =>
          filed == Book(if referencing != {} && swept then after.rules else d.rules, after.templates)
  {
  }

  // ---- what a section leaves ----------------------------------------------------------

  function OtherThan(ruleId: Id): Rule -> bool {
    (r: Rule) => r.id != ruleId
  }

  function NotNaming(templateId: Id): Rule -> bool {
    (r: Rule) => r.templateId != templateId
  }

  lemma {:induction false} WithoutKeepsOthers(rules: seq<Rule>, ruleId: Id)
    ensures KeptInOrder(rules, Without(rules, ruleId), OtherThan(ruleId))
    decreases |rules|
  {
    if rules != [] {
      WithoutKeepsOthers(rules[1..], ruleId);
      KeptBehind(rules[0], rules[1..], Without(rules[1..], ruleId), OtherThan(ruleId));
      assert rules == [rules[0]] + rules[1..];
      assert [] + Without(rules[1..], ruleId) == Without(rules[1..], ruleId);
    }
  }

  lemma {:induction false} WithoutTemplateKeepsOthers(rules: seq<Rule>, templateId: Id)
    ensures KeptInOrder(rules, WithoutTemplate(rules, templateId), NotNaming(templateId))
    decreases |rules|
  {
    if rules != [] {
      WithoutTemplateKeepsOthers(rules[1..], templateId);
      KeptBehind(rules[0], rules[1..], WithoutTemplate(rules[1..], templateId), NotNaming(templateId));
      assert rules == [rules[0]] + rules[1..];
      assert [] + WithoutTemplate(rules[1..], templateId) == WithoutTemplate(rules[1..], templateId);
    }
  }

  /** The first rule under an id. */
  ghost predicate IsFirst(rules: seq<Rule>, rule: Rule, i: nat) {
    i < |rules| && rules[i] == rule && forall j | 0 <= j < i :: rules[j].id != rule.id
  }

  lemma {:induction false} FindsFirst(rules: seq<Rule>, rule: Rule)
    ensures FindRule(rules, rule.id) == Some(rule) <==> exists i: nat :: IsFirst(rules, rule, i)
    decreases |rules|
  {
    if rules != [] {
      var rest := rules[1..];
      FindsFirst(rest, rule);
      if i: nat :| IsFirst(rest, rule, i) && rules[0].id != rule.id {
        assert IsFirst(rules, rule, i + 1);
      }
      if i: nat :| IsFirst(rules, rule, i) {
        assert i > 0 ==> IsFirst(rest, rule, i - 1);
      }
      if rules[0] == rule {
        assert IsFirst(rules, rule, 0);
      }
    }
  }

  /** The source is there, the template the change names is, and the rule to be replaced is as its author saw it. */
  ghost predicate Timely(b: Book, sourceId: Id, c: Change) {
    && sourceId in b.rules
    && match c
       case Add(rule) => rule.templateId in b.templates
       case Replace(seen, templateId, _) => templateId in b.templates && exists i: nat :: IsFirst(b.rules[sourceId], seen, i)
       case Remove(_) => true
  }

  /**
   What saving a change leaves: one that is not timely, or cannot be saved, changes nothing. An
   addition puts its rule at the end, a replacement rewrites the rules under that id where they
   stand, a removal keeps exactly the rules of other ids in their order. No other source changes.
   */
  lemma SavedChangeExactly(b: Book, sourceId: Id, c: Change, saved: bool)
    ensures
      var after := After(b, SaveRules(sourceId, c, saved));
      if !Timely(b, sourceId, c) || !saved then after == b
      else
        && after.templates == b.templates && after.rules.Keys == b.rules.Keys
        && (forall s | s in b.rules && s != sourceId :: after.rules[s] == b.rules[s])
        && match c
           case Add(rule) => after.rules[sourceId] == b.rules[sourceId] + [rule]
           case Replace(seen, templateId, filter) =>
             && |after.rules[sourceId]| == |b.rules[sourceId]|
             && forall i | 0 <= i < |b.rules[sourceId]| ::
                  after.rules[sourceId][i]
                  == if b.rules[sourceId][i].id == seen.id then Rule(seen.id, templateId, filter) else b.rules[sourceId][i]
           case Remove(ruleId) => KeptInOrder(b.rules[sourceId], after.rules[sourceId], OtherThan(ruleId))
  {
    if sourceId in b.rules {
      match c
      case Add(_) =>
      case Replace(seen, _, _) => FindsFirst(b.rules[sourceId], seen);
      case Remove(ruleId) => WithoutKeepsOthers(b.rules[sourceId], ruleId);
    }
  }

  /**
   What deleting a template leaves: nothing changes unless the template is at the disclosed
   revision, exactly the disclosed sources name it, and the templates can be saved. Otherwise it
   is gone, each source keeps exactly its rules of other templates in their order, and no other
   template changes.
   */
  lemma DeletionExactly(b: Book, templateId: Id, revision: Id, referencing: set<Id>, saved: bool, swept: bool)
    ensures
      var after := After(b, DeleteTemplate(templateId, revision, referencing, saved, swept));
      var agreed := saved && templateId in b.templates && b.templates[templateId] == revision
        && forall s :: s in referencing <==> s in b.rules && exists i :: 0 <= i < |b.rules[s]| && b.rules[s][i].templateId == templateId;
      if !agreed then after == b
      else
        && after.templates == b.templates - {templateId} && after.rules.Keys == b.rules.Keys
        && forall s | s in b.rules :: KeptInOrder(b.rules[s], after.rules[s], NotNaming(templateId))
  {
    forall s | s in b.rules ensures KeptInOrder(b.rules[s], WithoutTemplate(b.rules[s], templateId), NotNaming(templateId)) {
      WithoutTemplateKeepsOthers(b.rules[s], templateId);
    }
  }
}
