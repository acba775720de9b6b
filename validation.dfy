// Field validators (FieldValidator, NotNullValidator, UniquenessValidator)
// and the rule a collection's validation loop follows.

module Validation {
  import opened Common
  import opened Values
  import opened Records

  datatype ValidatorKind = NotNull | Uniqueness

  const DefaultMessage := "failed validation"
  /** The default message() of @ValidateNotNull and @ValidateUniqueness. */
  const NotNullMessage := "must not be null"
  const UniquenessMessage := "is already taken"
  const NotPresentMessage := "is not present"

  /** A validator's configuration: its kind, the field it is bound to
    * (none before setField) and its message. */
  datatype Rule = Rule(kind: ValidatorKind, field: Option<string>, message: string)

  /** The verdict of a bound validator on a record's fields. A field the
    * record does not have cannot be read, which fails validation. */
  function Passes(kind: ValidatorKind, field: string, values: map<string, Value>): bool {
    if field !in values then false
    else match kind
      case NotNull => values[field] != Null
      case Uniqueness => true
  }

  /** The errors a bound validator adds to the record. */
  function Added(kind: ValidatorKind, field: string, message: string, values: map<string, Value>)
    : seq<RecordError>
  {
    if field !in values then [RecordError(Some(field), NotPresentMessage, false)]
    else match kind
      case NotNull => if values[field] == Null then [RecordError(Some(field), message, false)] else []
      case Uniqueness => []
  }

  /** A validator fails exactly when it adds an error, and then it adds one
    * error about its own field. The uniqueness stub never fails on a field
    * that can be read. */
  lemma VerdictMatchesErrors(kind: ValidatorKind, field: string, message: string, values: map<string, Value>)
    ensures Passes(kind, field, values) <==> Added(kind, field, message, values) == []
    ensures !Passes(kind, field, values) ==>
              |Added(kind, field, message, values)| == 1 &&
              Added(kind, field, message, values)[0].property == Some(field)
    ensures kind == Uniqueness && field in values ==> Passes(kind, field, values)
    ensures kind == NotNull && field in values ==> (Passes(kind, field, values) <==> values[field] != Null)
  {
  }

  class FieldValidator {
    const kind: ValidatorKind
    var field: Option<string>
    var message: string

    /** newInstance(): not yet bound to a field, default message. */
    constructor (kind: ValidatorKind)
      ensures this.kind == kind && field == None && message == DefaultMessage
    {
      this.kind := kind;
      field := None;
      message := DefaultMessage;
    }

    function AsRule(): Rule
      reads this
    {
      Rule(kind, field, message)
    }

    function GetField(): (f: Option<string>)
      reads this
      ensures f == field
    {
      field
    }

    method SetField(f: string)
      modifies this
      ensures field == Some(f) && message == old(message)
    {
      field := Some(f);
    }

    function GetMessage(): (m: string)
      reads this
      ensures m == message
    {
      message
    }

    method SetMessage(m: string)
      modifies this
      ensures message == m && field == old(field)
    {
      message := m;
    }

    /** populateFromAnnotation: both kinds take the annotation's message(). */
    method PopulateFromAnnotation(annotationMessage: string)
      modifies this
      ensures message == annotationMessage && field == old(field)
    {
      SetMessage(annotationMessage);
    }

    /**
     * validate(collection, record): reads the bound field and returns the
     * kind's verdict; a failure appends one error. With no field bound, the
     * error path itself dereferences the missing field and throws.
     */
    method Validate(record: Record) returns (r: Result<bool>)
      modifies record
      ensures field.None? ==> r == Err(NullPointer) && record.errors == old(record.errors)
      ensures field.Some? ==> r == Ok(Passes(kind, field.value, record.values))
      ensures field.Some? ==>
                record.errors == old(record.errors) + Added(kind, field.value, message, record.values)
      ensures record.values == old(record.values) && record.persisted == old(record.persisted)
      ensures record.syncState == old(record.syncState)
      ensures record.createdAt == old(record.createdAt) && record.updatedAt == old(record.updatedAt)
    {
      if field.None? {
        return Err(NullPointer);
      }
      var f := field.value;
      if f !in record.values {
        record.AddErrorMessage(f, NotPresentMessage);
        return Ok(false);
      }
      var value := record.values[f];
      match kind
      case NotNull =>
        if value == Null {
          record.AddErrorMessage(f, message);
          return Ok(false);
        }
        return Ok(true);
      case Uniqueness =>
        return Ok(true);
    }
  }

  // ---- the loop of DbCollection.validate

  /** The errors collected by running validators in order, and whether one
    * of them threw (which ends the loop). */
  datatype Run = Run(errors: seq<RecordError>, thrown: bool)

  /** One pass of the loop body: a validator, then, as the loop is
    * written, the record's onValidate hook (`hook` is what it adds). */
  function Step(prev: Run, rule: Rule, values: map<string, Value>, hook: seq<RecordError>): Run {
    if prev.thrown then prev
    else if rule.field.None? then Run(prev.errors, true)
    else Run(prev.errors + Added(rule.kind, rule.field.value, rule.message, values) + hook, false)
  }

  function RunRules(rules: seq<Rule>, values: map<string, Value>, hook: seq<RecordError>): Run
    decreases |rules|
  {
    if rules == [] then Run([], false)
    else Step(RunRules(rules[..|rules| - 1], values, hook), rules[|rules| - 1], values, hook)
  }

  /** Running one more validator is one more step of the loop. */
  lemma RunRulesStep(rules: seq<Rule>, i: nat, values: map<string, Value>, hook: seq<RecordError>)
    requires i < |rules|
    ensures RunRules(rules[..i + 1], values, hook) == Step(RunRules(rules[..i], values, hook), rules[i], values, hook)
  {
    assert rules[..i + 1][..i] == rules[..i];
  }

  /** A validator that throws ends the loop: the later ones never run. */
  lemma {:induction false} ThrownIsFinal(rules: seq<Rule>, k: nat, values: map<string, Value>, hook: seq<RecordError>)
    requires k <= |rules| && RunRules(rules[..k], values, hook).thrown
    ensures RunRules(rules, values, hook) == RunRules(rules[..k], values, hook)
    decreases |rules| - k
  {
    if k < |rules| {
      assert rules[..k + 1][..k] == rules[..k];
      ThrownIsFinal(rules, k + 1, values, hook);
    } else {
      assert rules[..k] == rules;
    }
  }

  /** The rules of a list of validators, in order. */
  function RulesOf(vs: seq<FieldValidator>): (rules: seq<Rule>)
    reads set v | v in vs
    ensures |rules| == |vs|
    decreases |vs|
  {
    if vs == [] then [] else RulesOf(vs[..|vs| - 1]) + [vs[|vs| - 1].AsRule()]
  }

  lemma {:induction false} RulesOfIndex(vs: seq<FieldValidator>, i: nat)
    requires i < |vs|
    ensures RulesOf(vs)[i] == vs[i].AsRule()
    decreases |vs|
  {
    if i < |vs| - 1 {
      RulesOfIndex(vs[..|vs| - 1], i);
    }
  }

  /** As written, the hook runs once per validator, so a model without
    * field validators never has its onValidate called at all... */
  lemma HookSkippedWithoutValidators(values: map<string, Value>, hook: seq<RecordError>)
    ensures RunRules([], values, hook).errors == []
  {
  }

  /** ...and with two validators its errors come twice. */
  lemma HookRepeatedPerValidator(values: map<string, Value>, hook: seq<RecordError>)
    requires "a" in values && "b" in values
    ensures RunRules([Rule(Uniqueness, Some("a"), ""), Rule(Uniqueness, Some("b"), "")], values, hook).errors
            == hook + hook
  {
    var rules := [Rule(Uniqueness, Some("a"), ""), Rule(Uniqueness, Some("b"), "")];
    assert rules[..1] == [Rule(Uniqueness, Some("a"), "")];
    assert rules[..1][..0] == [];
  }

  /** What validation is documented to collect: every validator's errors,
    * then the onValidate hook's errors once (unless a validator threw). */
  function ValidationErrors(rules: seq<Rule>, values: map<string, Value>, hook: seq<RecordError>): Run {
    var fields := RunRules(rules, values, []);
    if fields.thrown then fields else Run(fields.errors + hook, false)
  }

  /** With every validator bound, the documented run never throws, and the
    * record passes iff every validator passes and the hook adds nothing. */
  lemma {:induction false} ValidationPassesIff(rules: seq<Rule>, values: map<string, Value>, hook: seq<RecordError>)
    requires forall i :: 0 <= i < |rules| ==> rules[i].field.Some?
    ensures !ValidationErrors(rules, values, hook).thrown
    ensures ValidationErrors(rules, values, hook).errors == [] <==>
              hook == [] &&
              forall i :: 0 <= i < |rules| ==> Passes(rules[i].kind, rules[i].field.value, values)
    decreases |rules|
  {
    AllPassIff(rules, values);
  }

  lemma {:induction false} AllPassIff(rules: seq<Rule>, values: map<string, Value>)
    requires forall i :: 0 <= i < |rules| ==> rules[i].field.Some?
    ensures !RunRules(rules, values, []).thrown
    ensures RunRules(rules, values, []).errors == [] <==>
              forall i :: 0 <= i < |rules| ==> Passes(rules[i].kind, rules[i].field.value, values)
    decreases |rules|
  {
    if rules != [] {
      var init, last := rules[..|rules| - 1], rules[|rules| - 1];
      assert forall i :: 0 <= i < |init| ==> init[i] == rules[i];
      AllPassIff(init, values);
      VerdictMatchesErrors(last.kind, last.field.value, last.message, values);
      var prev := RunRules(init, values, []);
      var added := Added(last.kind, last.field.value, last.message, values);
      assert RunRules(rules, values, []).errors == prev.errors + added + [];
      if forall i :: 0 <= i < |rules| ==> Passes(rules[i].kind, rules[i].field.value, values) {
        assert forall i :: 0 <= i < |init| ==> Passes(init[i].kind, init[i].field.value, values);
      }
    }
  }

  /** The fixture's Author with no name fails the not-null rule with the
    * single error "must not be null" on its name. */
  lemma AuthorWithoutName(values: map<string, Value>)
    requires "name" in values && values["name"] == Null
    ensures ValidationErrors([Rule(NotNull, Some("name"), NotNullMessage)], values, []).errors
            == [RecordError(Some("name"), NotNullMessage, false)]
  {
    var rules := [Rule(NotNull, Some("name"), NotNullMessage)];
    assert rules[..0] == [];
    assert RunRules(rules, values, []) == Run([RecordError(Some("name"), NotNullMessage, false)], false);
  }
}
